// JDK argument files: rendering a command line into one, and spilling an over-long command line.
module ArgumentFiles {
  import opened Text

  const MAX_COMMAND_LINE_BYTES: nat := 32_000
  const ARGUMENT_FILE_DIR := "target/jals/build"
  const ARGUMENT_FILE_PARTS: seq<string> := ["target", "jals", "build"]

  datatype Invocation = Invocation(
    program: string, args: seq<string>, workingDir: string, environment: map<string, string>)

  datatype Tool = Javac | Java

  predicate HasTerminator(arg: string) {
    '\n' in arg || '\r' in arg
  }

  // ---- Rendering ----

  function Escaped(arg: string): string {
    if arg == "" then ""
    else (if arg[0] == '\\' || arg[0] == '"' then ['\\', arg[0]] else [arg[0]]) + Escaped(arg[1..])
  }

  function Body(args: seq<string>): string
    decreases |args|
  {
    if args == [] then ""
    else "\"" + Escaped(args[0]) + "\"\n" + Body(args[1..])
  }

  lemma {:induction false} EscapedAppend(a: string, c: char)
    ensures Escaped(a + [c]) == Escaped(a) + if c == '\\' || c == '"' then ['\\', c] else [c]
    decreases |a|
  {
    if a == "" {
      assert a + [c] == [c];
    } else {
      assert (a + [c])[1..] == a[1..] + [c];
      EscapedAppend(a[1..], c);
    }
  }

  lemma {:induction false} BodyAppend(args: seq<string>, arg: string)
    ensures Body(args + [arg]) == Body(args) + "\"" + Escaped(arg) + "\"\n"
    decreases |args|
  {
    if args == [] {
      assert args + [arg] == [arg];
    } else {
      assert (args + [arg])[1..] == args[1..] + [arg];
      BodyAppend(args[1..], arg);
    }
  }

  method ArgumentFile(args: seq<string>) returns (r: Option<string>)
    ensures r.None? <==> exists arg <- args :: HasTerminator(arg)
    ensures r.Some? ==> r.value == Body(args)
  {
    var body := "";
    if exists arg <- args :: HasTerminator(arg) {
      return None;
    }
    var i := 0;
    while i < |args|
      invariant i <= |args| && body == Body(args[..i])
    {
      var arg := args[i];
      ghost var before := body;
      body := body + ['"'];
      var j := 0;
      while j < |arg|
        invariant j <= |arg| && body == before + "\"" + Escaped(arg[..j])
      {
        assert arg[..j + 1] == arg[..j] + [arg[j]];
        EscapedAppend(arg[..j], arg[j]);
        if arg[j] == '\\' || arg[j] == '"' {
          body := body + ['\\'];
        }
        body := body + [arg[j]];
        j := j + 1;
      }
      assert arg[..j] == arg;
      body := body + "\"\n";
      assert args[..i + 1] == args[..i] + [arg];
      BodyAppend(args[..i], arg);
      i := i + 1;
    }
    assert args[..i] == args;
    r := Some(body);
  }

  // ---- The tokenizer a JDK reads an argument file with ----

  datatype Mode = Between | Bare(token: string) | Quoted(quote: char, token: string) | Comment

  predicate IsSpace(c: char) {
    c == ' ' || c == '\t' || c == '\n' || c == '\r' || c == 0x0C as char
  }

  // A backslash inside quotes names a control character or stands for what follows it.
  function Unescape(c: char): char {
    if c == 'n' then '\n' else if c == 'r' then '\r' else if c == 't' then '\t'
    else if c == 'f' then 0x0C as char else c
  }

  function DropSpaces(s: string): (r: string)
    ensures |r| <= |s|
  {
    if s != "" && IsSpace(s[0]) then DropSpaces(s[1..]) else s
  }

  // Whitespace separates tokens, `#` opens a comment, quotes join what they enclose to the token, and
  // a line terminator ends a token, quoted or not.
  function Scan(s: string, mode: Mode): seq<string>
    decreases |s|
  {
    if s == "" then
      match mode
      case Between => []
      case Comment => []
      case Bare(token) => [token]
      case Quoted(_, token) => [token]
    else
      var c, rest := s[0], s[1..];
      match mode
      case Between =>
        if IsSpace(c) then Scan(rest, Between)
        else if c == '#' then Scan(rest, Comment)
        else if c == '"' || c == '\'' then Scan(rest, Quoted(c, ""))
        else Scan(rest, Bare([c]))
      case Comment =>
        Scan(rest, if c == '\n' || c == '\r' then Between else Comment)
      case Bare(token) =>
        if IsSpace(c) then [token] + Scan(rest, Between)
        else if c == '"' || c == '\'' then Scan(rest, Quoted(c, token))
        else Scan(rest, Bare(token + [c]))
      case Quoted(quote, token) =>
        if c == quote then Scan(rest, Bare(token))
        else if c == '\n' || c == '\r' then [token] + Scan(rest, Between)
        else if c == '\\' && rest != "" then
          if rest[0] == '\n' || rest[0] == '\r' then Scan(DropSpaces(rest[1..]), mode)
          else Scan(rest[1..], Quoted(quote, token + [Unescape(rest[0])]))
        else Scan(rest, Quoted(quote, token + [c]))
  }

  // Spaces, tabs, line ends and form feeds lie between tokens and end a bare one.
  lemma SpaceRules(space: char, rest: string, token: string)
    requires space in [' ', '\t', '\n', '\r', 0x0C as char]
    ensures Scan([space] + rest, Between) == Scan(rest, Between)
    ensures Scan([space] + rest, Bare(token)) == [token] + Scan(rest, Between)
  {
    assert ([space] + rest)[1..] == rest;
  }

  // Either quote opens a quoted part, of a new token or of the one before it, and closes what it opened.
  lemma QuoteRules(quote: char, rest: string, token: string)
    requires quote == '"' || quote == '\''
    ensures Scan([quote] + rest, Between) == Scan(rest, Quoted(quote, ""))
    ensures Scan([quote] + rest, Bare(token)) == Scan(rest, Quoted(quote, token))
    ensures Scan([quote] + rest, Quoted(quote, token)) == Scan(rest, Bare(token))
  {
    assert ([quote] + rest)[1..] == rest;
  }

  // An escape in quotes is one of four control characters or what it escapes.
  lemma EscapeRules(c: char, rest: string, token: string, quote: char)
    requires c != '\n' && c != '\r' && quote != '\\'
    ensures Scan(['\\', c] + rest, Quoted(quote, token)) ==
      Scan(rest, Quoted(quote, token + [if c == 'n' then '\n'
                                        else if c == 'r' then '\r'
                                        else if c == 't' then '\t'
                                        else if c == 'f' then 0x0C as char
                                        else c]))
  {
    var s := ['\\', c] + rest;
    assert s[1..][0] == c && s[1..][1..] == rest;
  }

  // An escaped line end is left out, and so are the spaces the next line starts with.
  lemma ContinuationRules(end: char, space: char, c: char, rest: string, token: string, quote: char)
    requires end in ['\n', '\r'] && space in [' ', '\t', '\n', '\r', 0x0C as char] && quote != '\\'
    requires c !in [' ', '\t', '\n', '\r', 0x0C as char]
    ensures Scan(['\\', end, space, c] + rest, Quoted(quote, token)) == Scan([c] + rest, Quoted(quote, token))
  {
    var s := ['\\', end, space, c] + rest;
    assert s[1..][0] == end && s[1..][1..] == [space] + ([c] + rest);
    assert ([space] + ([c] + rest))[1..] == [c] + rest;
    assert DropSpaces([space] + ([c] + rest)) == DropSpaces([c] + rest) == [c] + rest;
  }

  // A comment starts between tokens and goes on to the end of its line.
  lemma CommentRules(c: char, rest: string)
    ensures Scan(['#'] + rest, Between) == Scan(rest, Comment)
    ensures Scan([c] + rest, Comment) == Scan(rest, if c == '\n' || c == '\r' then Between else Comment)
  {
    assert (['#'] + rest)[1..] == rest && ([c] + rest)[1..] == rest;
  }

  function Tokenize(body: string): seq<string> {
    Scan(body, Between)
  }

  // ---- Rendering and tokenizing undo each other ----

  function EscapedChar(c: char): string {
    if c == '\\' || c == '"' then ['\\', c] else [c]
  }

  lemma ScanChar(c: char, token: string, rest: string)
    requires c != '\n' && c != '\r'
    ensures Scan(EscapedChar(c) + rest, Quoted('"', token)) == Scan(rest, Quoted('"', token + [c]))
  {
    var s := EscapedChar(c) + rest;
    if c == '\\' || c == '"' {
      assert s[1..][0] == c && s[1..][1..] == rest;
    } else {
      assert s[1..] == rest;
    }
  }

  lemma PlainTail(arg: string)
    requires arg != "" && !HasTerminator(arg)
    ensures arg[0] != '\n' && arg[0] != '\r' && !HasTerminator(arg[1..])
  {
    assert arg[0] in arg;
  }

  lemma EscapedFirst(arg: string, rest: string)
    requires arg != ""
    ensures Escaped(arg) + rest == EscapedChar(arg[0]) + (Escaped(arg[1..]) + rest)
  {
    var first, more := EscapedChar(arg[0]), Escaped(arg[1..]);
    assert Escaped(arg) == first + more;
    Together(first, more, rest);
  }

  lemma Together<T>(a: seq<T>, b: seq<T>, c: seq<T>)
    ensures a + b + c == a + (b + c)
  {
  }

  lemma FirstAndRest<T>(before: seq<T>, s: seq<T>)
    requires s != []
    ensures before + [s[0]] + s[1..] == before + s
  {
  }

  // Reading one escaped character after another.
  lemma ScanNext(s: string, c: char, tail: string, rest: string, token: string, more: string)
    requires s == EscapedChar(c) + tail && c != '\n' && c != '\r'
    requires Scan(tail, Quoted('"', token + [c])) == Scan(rest, Quoted('"', token + [c] + more))
    ensures Scan(s, Quoted('"', token)) == Scan(rest, Quoted('"', token + [c] + more))
  {
    ScanChar(c, token, tail);
  }

  lemma {:induction false} ScanEscaped(arg: string, token: string, rest: string)
    requires !HasTerminator(arg)
    ensures Scan(Escaped(arg) + rest, Quoted('"', token)) == Scan(rest, Quoted('"', token + arg))
    decreases |arg|
  {
    if arg == "" {
      assert Escaped(arg) + rest == rest && token + arg == token;
    } else {
      PlainTail(arg);
      EscapedFirst(arg, rest);
      FirstAndRest(token, arg);
      ScanEscaped(arg[1..], token + [arg[0]], rest);
      ScanNext(Escaped(arg) + rest, arg[0], Escaped(arg[1..]) + rest, rest, token, arg[1..]);
    }
  }

  lemma ScanArgument(arg: string, rest: string)
    requires !HasTerminator(arg)
    ensures Scan("\"" + Escaped(arg) + "\"\n" + rest, Between) == [arg] + Scan(rest, Between)
  {
    var s := "\"" + Escaped(arg) + "\"\n" + rest;
    var tail := "\"\n" + rest;
    assert s[0] == '"' && s[1..] == Escaped(arg) + tail;
    ScanEscaped(arg, "", tail);
    assert "" + arg == arg;
    assert tail[0] == '"' && tail[1..][0] == '\n' && tail[1..][1..] == rest;
  }

  lemma {:induction false} BodyTokenizes(args: seq<string>)
    requires forall arg <- args :: !HasTerminator(arg)
    ensures Tokenize(Body(args)) == args
    decreases |args|
  {
    if args != [] {
      assert args[0] in args;
      ScanArgument(args[0], Body(args[1..]));
      BodyTokenizes(args[1..]);
    }
  }

  lemma {:induction false} FirstTerminator(arg: string) returns (head: string, c: char, tail: string)
    requires HasTerminator(arg)
    ensures arg == head + [c] + tail && !HasTerminator(head) && (c == '\n' || c == '\r')
    decreases |arg|
  {
    if arg[0] == '\n' || arg[0] == '\r' {
      head, c, tail := "", arg[0], arg[1..];
    } else {
      head, c, tail := FirstTerminator(arg[1..]);
      head := [arg[0]] + head;
    }
  }

  lemma {:induction false} EscapedConcat(a: string, b: string)
    ensures Escaped(a + b) == Escaped(a) + Escaped(b)
    decreases |a|
  {
    if a == "" {
      assert a + b == b;
    } else {
      assert (a + b)[1..] == a[1..] + b;
      EscapedConcat(a[1..], b);
    }
  }

  lemma ScanOpened(text: string)
    ensures Scan("\"" + text, Between) == Scan(text, Quoted('"', ""))
  {
    assert ("\"" + text)[1..] == text;
  }

  lemma ScanCut(head: string, c: char, rest: string)
    requires !HasTerminator(head) && (c == '\n' || c == '\r')
    ensures Scan("\"" + (Escaped(head) + ([c] + rest)), Between) == [head] + Scan(rest, Between)
  {
    var after := [c] + rest;
    ScanOpened(Escaped(head) + after);
    ScanEscaped(head, "", after);
    assert "" + head == head && after[1..] == rest;
  }

  // A terminator cuts its argument short.
  lemma ScanTerminated(arg: string, rest: string)
    requires HasTerminator(arg)
    ensures var tokens := Scan("\"" + Escaped(arg) + "\"\n" + rest, Between); tokens != [] && |tokens[0]| < |arg|
  {
    var head, c, tail := FirstTerminator(arg);
    var after := Escaped(tail) + "\"\n" + rest;
    assert arg == head + ([c] + tail);
    EscapedConcat(head, [c] + tail);
    assert Escaped([c] + tail) == [c] + Escaped(tail) by {
      assert ([c] + tail)[1..] == tail;
    }
    assert "\"" + Escaped(arg) + "\"\n" + rest == "\"" + (Escaped(head) + ([c] + after));
    ScanCut(head, c, after);
  }

  lemma {:induction false} TerminatorCorrupts(args: seq<string>)
    requires exists arg <- args :: HasTerminator(arg)
    ensures Tokenize(Body(args)) != args
    decreases |args|
  {
    if HasTerminator(args[0]) {
      ScanTerminated(args[0], Body(args[1..]));
    } else {
      ScanArgument(args[0], Body(args[1..]));
      assert args == [args[0]] + args[1..];
      TerminatorCorrupts(args[1..]);
    }
  }

  // An argument list survives its file exactly when the program agrees to render it.
  lemma SurvivesExactly(args: seq<string>)
    ensures Tokenize(Body(args)) == args <==> !exists arg <- args :: HasTerminator(arg)
  {
    if exists arg <- args :: HasTerminator(arg) {
      TerminatorCorrupts(args);
    } else {
      BodyTokenizes(args);
    }
  }

  // ---- Paths ----

  // A place in the file system: the names from the root to it.
  type Place = seq<string>

  function StepInto(dir: Place, part: string): Place {
    if part == "" || part == "." then dir
    else if part == ".." then if dir == [] then [] else dir[..|dir| - 1]
    else dir + [part]
  }

  function Walk(dir: Place, parts: seq<string>): Place
    decreases |parts|
  {
    if parts == [] then dir else Walk(StepInto(dir, parts[0]), parts[1..])
  }

  predicate Absolute(path: string) {
    path != "" && path[0] == '/'
  }

  // Where a path leads a process running in `dir`.
  function Resolve(dir: Place, path: string): Place {
    Walk(if Absolute(path) then [] else dir, Split(path, '/'))
  }

  // `Path::join` of a relative path.
  function JoinPath(base: string, path: string): string {
    if base == "" then path else if base[|base| - 1] == '/' then base + path else base + "/" + path
  }

  // `..` leads up, `.` and nothing nowhere, and any other part down.
  lemma WalkRules(dir: Place, part: string)
    requires part != "" && part != "." && part != ".."
    ensures Walk(dir + [part], [".."]) == dir && Walk([], [".."]) == []
    ensures Walk(dir, ["."]) == Walk(dir, [""]) == dir && Walk(dir, [part]) == dir + [part]
  {
    var below := dir + [part];
    assert below[..|below| - 1] == dir;
    assert Walk(dir, [".."][1..]) == dir && Walk([], [".."][1..]) == [];
    assert Walk(dir, ["."][1..]) == dir && Walk(dir, [""][1..]) == dir && Walk(below, [part][1..]) == below;
  }

  lemma {:induction false} WalkConcat(dir: Place, a: seq<string>, b: seq<string>)
    ensures Walk(dir, a + b) == Walk(Walk(dir, a), b)
    decreases |a|
  {
    if a == [] {
      assert a + b == b;
    } else {
      assert (a + b)[0] == a[0] && (a + b)[1..] == a[1..] + b;
      WalkConcat(StepInto(dir, a[0]), a[1..], b);
    }
  }

  lemma WalkSlash(start: Place, a: string, path: string)
    ensures Walk(start, Split(a + "/" + path, '/')) == Walk(Walk(start, Split(a, '/')), Split(path, '/'))
  {
    SplitConcat(a, path, '/');
    WalkConcat(start, Split(a, '/'), Split(path, '/'));
  }

  lemma WalkNothing(start: Place)
    ensures Walk(start, Split("", '/')) == start
  {
    assert Walk(start, [""]) == Walk(start, [""][1..]) == start;
  }

  // Joining resolves in two steps.
  lemma ResolveJoin(dir: Place, base: string, path: string)
    requires path == "" || path[0] != '/'
    ensures Resolve(dir, JoinPath(base, path)) == Walk(Resolve(dir, base), Split(path, '/'))
  {
    if base == "" {
      WalkNothing(dir);
    } else if base[|base| - 1] == '/' {
      ResolveJoinSlash(dir, base, base[..|base| - 1], path);
    } else {
      assert Absolute(base + "/" + path) == Absolute(base);
      WalkSlash(if Absolute(base) then [] else dir, base, path);
    }
  }

  lemma ResolveJoinSlash(dir: Place, base: string, before: string, path: string)
    requires base == before + "/"
    ensures Resolve(dir, base + path) == Walk(Resolve(dir, base), Split(path, '/'))
  {
    var start := if Absolute(base) then [] else dir;
    assert base + path == before + "/" + path && base == before + "/" + "";
    assert Absolute(base + path) == Absolute(base);
    WalkSlash(start, before, path);
    WalkSlash(start, before, "");
    WalkNothing(Walk(start, Split(before, '/')));
  }

  // ---- Spilling ----

  function ArgsLength(args: seq<string>): nat {
    if args == [] then 0 else ArgsLength(args[..|args| - 1]) + Length(args[|args| - 1]) + 1
  }

  function CommandLineLength(invocation: Invocation): nat {
    Length(invocation.program) + 1 + ArgsLength(invocation.args)
  }

  predicate NeedsArgumentFile(invocation: Invocation) {
    CommandLineLength(invocation) > MAX_COMMAND_LINE_BYTES
  }

  lemma {:induction false} ArgsLengthConcat(a: seq<string>, b: seq<string>)
    ensures ArgsLength(a + b) == ArgsLength(a) + ArgsLength(b)
    decreases |b|
  {
    if b == [] {
      assert a + b == a;
    } else {
      assert (a + b)[..|a + b| - 1] == a + b[..|b| - 1];
      ArgsLengthConcat(a, b[..|b| - 1]);
    }
  }

  lemma ArgsLengthFirst(first: string, rest: seq<string>)
    ensures ArgsLength([first] + rest) == Length(first) + 1 + ArgsLength(rest)
  {
    ArgsLengthConcat([first], rest);
    assert [first][..0] == [];
  }

  // A command line is its words with a space between them.
  lemma {:induction false} LineLength(words: seq<string>)
    requires words != []
    ensures Length(Join(words, ' ')) + 1 == ArgsLength(words)
    decreases |words|
  {
    var first, rest := words[0], words[1..];
    assert words == [first] + rest;
    ArgsLengthFirst(first, rest);
    if rest != [] {
      LineLength(rest);
      Utf8Concat(first + [' '], Join(rest, ' '));
      Utf8Concat(first, [' ']);
      assert Utf8([' ']) == [0x20] by {
        assert [' '][1..] == "";
      }
    }
  }

  // Spilled is exactly what would take 32,000 bytes or more to write as one command line and has no
  // argument with a line break in it.
  lemma SpilledExactly(invocation: Invocation)
    ensures Spillable(invocation) <==>
      && Length(Join([invocation.program] + invocation.args, ' ')) >= 32_000
      && forall arg <- invocation.args :: '\n' !in arg && '\r' !in arg
  {
    LineLength([invocation.program] + invocation.args);
    ArgsLengthFirst(invocation.program, invocation.args);
  }

  function ArgumentFileName(tool: Tool): string {
    if tool.Javac? then "javac-args" else "java-args"
  }

  function ArgumentPath(workingDir: string, tool: Tool): (path: string)
    ensures |path| >= 1
  {
    JoinPath(JoinPath(workingDir, ARGUMENT_FILE_DIR), ArgumentFileName(tool))
  }

  function Below(dir: Place, tool: Tool): Place {
    dir + ARGUMENT_FILE_PARTS + [ArgumentFileName(tool)]
  }

  lemma DirectoryParts()
    ensures Split(ARGUMENT_FILE_DIR, '/') == ARGUMENT_FILE_PARTS && Names(ARGUMENT_FILE_PARTS)
  {
    assert ARGUMENT_FILE_DIR == Join(ARGUMENT_FILE_PARTS, '/') by {
      assert ARGUMENT_FILE_PARTS[1..] == ["jals", "build"] && ["jals", "build"][1..] == ["build"];
    }
    SplitJoin(ARGUMENT_FILE_PARTS, '/');
  }

  lemma FileNameParts(tool: Tool)
    ensures Split(ArgumentFileName(tool), '/') == [ArgumentFileName(tool)]
    ensures ArgumentFileName(tool)[0] != '/'
  {
    SplitWord(ArgumentFileName(tool), '/');
  }

  lemma DirectoryPlace(dir: Place, workingDir: string)
    ensures Resolve(dir, JoinPath(workingDir, ARGUMENT_FILE_DIR)) == Resolve(dir, workingDir) + ARGUMENT_FILE_PARTS
  {
    var place := Resolve(dir, workingDir);
    assert Resolve(dir, JoinPath(workingDir, ARGUMENT_FILE_DIR)) == Walk(place, ARGUMENT_FILE_PARTS) by {
      DirectoryParts();
      ResolveJoin(dir, workingDir, ARGUMENT_FILE_DIR);
    }
    assert Walk(place, ARGUMENT_FILE_PARTS) == place + ARGUMENT_FILE_PARTS by {
      DirectoryParts();
      WalkNames(place, ARGUMENT_FILE_PARTS);
    }
  }

  // From any directory, the argument file lies in the managed build directory of the working one.
  lemma ArgumentPlace(dir: Place, workingDir: string, tool: Tool)
    ensures Resolve(dir, ArgumentPath(workingDir, tool)) == Below(Resolve(dir, workingDir), tool)
  {
    var directory := JoinPath(workingDir, ARGUMENT_FILE_DIR);
    FileNameParts(tool);
    DirectoryPlace(dir, workingDir);
    ResolveJoin(dir, directory, ArgumentFileName(tool));
    WalkNames(Resolve(dir, directory), [ArgumentFileName(tool)]);
  }

  // The file of either tool, wherever the working directory is.
  lemma ArgumentFilePlaces(host: Place, workingDir: string)
    ensures Resolve(host, ArgumentPath(workingDir, Javac))
         == Resolve(host, workingDir) + ["target", "jals", "build", "javac-args"]
    ensures Resolve(host, ArgumentPath(workingDir, Java))
         == Resolve(host, workingDir) + ["target", "jals", "build", "java-args"]
  {
    var dir := Resolve(host, workingDir);
    ArgumentPlace(host, workingDir, Javac);
    ArgumentPlace(host, workingDir, Java);
    assert Below(dir, Javac) == dir + ["target", "jals", "build", "javac-args"];
    assert Below(dir, Java) == dir + ["target", "jals", "build", "java-args"];
  }

  // Parts that move nowhere but down.
  predicate Names(parts: seq<string>) {
    forall part <- parts :: part != "" && part != "." && part != ".."
  }

  lemma {:induction false} WalkNames(dir: Place, parts: seq<string>)
    requires Names(parts)
    ensures Walk(dir, parts) == dir + parts
    decreases |parts|
  {
    if parts == [] {
      assert dir + parts == dir;
    } else {
      assert parts[0] in parts && forall part <- parts[1..] :: part in parts;
      WalkNames(dir + [parts[0]], parts[1..]);
      assert dir + [parts[0]] + parts[1..] == dir + parts;
    }
  }

  // What `spill_arguments` writes, seen from the directory jals runs in.
  function Spill(host: Place, files: map<Place, string>, writable: bool, tool: Tool, invocation: Invocation)
    : (Result<Invocation, string>, map<Place, string>)
  {
    var path := ArgumentPath(invocation.workingDir, tool);
    if !Spillable(invocation) then (Ok(invocation), files)
    else if !writable then (Err(path), files)
    else (Ok(invocation.(args := ["@" + path])), files[Resolve(host, path) := Body(invocation.args)])
  }

  predicate Spillable(invocation: Invocation) {
    NeedsArgumentFile(invocation) && !exists arg <- invocation.args :: HasTerminator(arg)
  }

  // ---- What a tool makes of its arguments ----

  // `@path` stands for the tokens of the file it names, which are not expanded again; a doubled sign
  // escapes itself, and a reference to no file stays as it is.
  function Expansion(dir: Place, files: map<Place, string>, arg: string): seq<string> {
    if |arg| <= 1 || arg[0] != '@' then [arg]
    else if arg[1] == '@' then [arg[1..]]
    else if Resolve(dir, arg[1..]) in files then Tokenize(files[Resolve(dir, arg[1..])])
    else [arg]
  }

  function Effective(dir: Place, files: map<Place, string>, args: seq<string>): seq<string>
    decreases |args|
  {
    if args == [] then [] else Expansion(dir, files, args[0]) + Effective(dir, files, args[1..])
  }

  lemma EffectiveOne(dir: Place, files: map<Place, string>, arg: string)
    ensures Effective(dir, files, [arg]) == Expansion(dir, files, arg)
  {
    assert [arg][1..] == [] && Effective(dir, files, []) == [];
    assert Expansion(dir, files, arg) + [] == Expansion(dir, files, arg);
  }

  // ---- When the tool finds the file ----

  // Seen from itself, the working directory is where it was, and its path is not read as an escape.
  predicate Findable(host: Place, workingDir: string) {
    && Resolve(Resolve(host, workingDir), workingDir) == Resolve(host, workingDir)
    && (workingDir == "" || workingDir[0] != '@')
  }

  lemma ReferenceShape(workingDir: string, tool: Tool)
    ensures var path := ArgumentPath(workingDir, tool);
      ("@" + path)[1..] == path && |"@" + path| > 1 &&
      (path[0] == '@' <==> workingDir != "" && workingDir[0] == '@')
  {
    var first := JoinPath(workingDir, ARGUMENT_FILE_DIR);
    assert first[0] == if workingDir == "" then 't' else workingDir[0];
    assert ArgumentPath(workingDir, tool)[0] == first[0];
  }

  // Two directories hold their argument files at one place only if they are one.
  lemma BelowApart(a: Place, b: Place, tool: Tool)
    ensures Below(a, tool) == Below(b, tool) <==> a == b
  {
    if Below(a, tool) == Below(b, tool) {
      assert |a| == |b|;
      assert Below(a, tool)[..|a|] == a && Below(b, tool)[..|b|] == b;
    }
  }

  // The spilled reference expands to the spilled arguments exactly when the file is found from the
  // working directory; otherwise to what it already did before the file was written.
  lemma SpilledEffective(host: Place, files: map<Place, string>, tool: Tool, invocation: Invocation)
    requires Spillable(invocation)
    ensures var (r, after) := Spill(host, files, true, tool, invocation);
      var dir := Resolve(host, invocation.workingDir);
      && r.Ok? && r.value.args == ["@" + ArgumentPath(invocation.workingDir, tool)]
      && Effective(dir, after, r.value.args) ==
           if Findable(host, invocation.workingDir) then invocation.args
           else Effective(dir, files, r.value.args)
  {
    var workingDir := invocation.workingDir;
    var dir := Resolve(host, workingDir);
    var path := ArgumentPath(workingDir, tool);
    var (r, after) := Spill(host, files, true, tool, invocation);
    ReferenceShape(workingDir, tool);
    ArgumentPlace(host, workingDir, tool);
    ArgumentPlace(dir, workingDir, tool);
    BelowApart(Resolve(dir, workingDir), dir, tool);
    EffectiveOne(dir, after, "@" + path);
    EffectiveOne(dir, files, "@" + path);
    BodyTokenizes(invocation.args);
  }

  // Without `..`, the file is found exactly when the working directory is absolute or is the
  // directory jals itself runs in.
  lemma FindableExactly(host: Place, workingDir: string)
    requires ".." !in Split(workingDir, '/')
    requires workingDir == "" || workingDir[0] != '@'
    ensures Findable(host, workingDir) <==> Absolute(workingDir) || Resolve(host, workingDir) == host
  {
    var parts := Split(workingDir, '/');
    if !Absolute(workingDir) {
      WalkDown(host, parts);
      WalkDown(Resolve(host, workingDir), parts);
    }
  }

  function Named(parts: seq<string>): seq<string>
    decreases |parts|
  {
    if parts == [] then []
    else (if parts[0] == "" || parts[0] == "." then [] else [parts[0]]) + Named(parts[1..])
  }

  lemma {:induction false} WalkDown(dir: Place, parts: seq<string>)
    requires ".." !in parts
    ensures Walk(dir, parts) == dir + Named(parts)
    decreases |parts|
  {
    if parts == [] {
      assert dir + [] == dir;
    } else {
      var part, rest := parts[0], parts[1..];
      assert part in parts && part != "..";
      var next := StepInto(dir, part);
      WalkDown(next, rest);
      if part == "" || part == "." {
        assert Named(parts) == [] + Named(rest) == Named(rest);
      } else {
        assert dir + [part] + Named(rest) == dir + ([part] + Named(rest));
      }
    }
  }

  lemma ProjectPlaces(host: Place)
    ensures Resolve(host, "project") == host + ["project"]
    ensures Resolve(host + ["project"], "project") == host + ["project", "project"]
    ensures !Findable(host, "project")
  {
    SplitWord("project", '/');
    WalkNames(host, ["project"]);
    WalkNames(host + ["project"], ["project"]);
    assert host + ["project"] + ["project"] == host + ["project", "project"];
    assert |host + ["project", "project"]| != |host + ["project"]|;
  }

  class Host {
    // The directory jals runs in.
    const directory: Place
    var files: map<Place, string>
    var writable: bool

    constructor (directory: Place, writable: bool)
      ensures this.directory == directory && files == map[] && this.writable == writable
    {
      this.directory, files, this.writable := directory, map[], writable;
    }

    // The only error is a file that cannot be written; then nothing has changed. What is not spilled
    // is untouched; what is keeps its program, directory, and environment, and its one reference
    // expands to its own arguments where the file is found.
    method SpillArguments(tool: Tool, invocation: Invocation) returns (r: Result<Invocation, string>)
      modifies this`files
      ensures (r, files) == Spill(directory, old(files), writable, tool, invocation)
      ensures r.Err? <==> Spillable(invocation) && !writable
      ensures r.Err? || !Spillable(invocation) ==> files == old(files)
      ensures r.Ok? ==> r.value.program == invocation.program && r.value.workingDir == invocation.workingDir
                        && r.value.environment == invocation.environment
      ensures !Spillable(invocation) ==> r == Ok(invocation)
      ensures r.Ok? && Spillable(invocation) && Findable(directory, invocation.workingDir) ==>
        Effective(Resolve(directory, invocation.workingDir), files, r.value.args) == invocation.args
    {
      if !NeedsArgumentFile(invocation) {
        return Ok(invocation);
      }
      var body := ArgumentFile(invocation.args);
      if body.None? {
        return Ok(invocation);
      }
      var path := ArgumentPath(invocation.workingDir, tool);
      if !writable {
        return Err(path);
      }
      SpilledEffective(directory, files, tool, invocation);
      files := files[Resolve(directory, path) := body.value];
      r := Ok(invocation.(args := ["@" + path]));
    }
  }
}
