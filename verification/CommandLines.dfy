// Planned `javac` and `java` command lines, what the two tools make of one, and when spilling it into
// an argument file keeps that.
module CommandLines {
  import opened Text
  import opened ArgumentFiles
  import RuntimeTable

  // ---- Planning ----

  datatype CompileRequest = CompileRequest(
    root: string, classesDir: string, release: Option<nat>, source: Option<nat>, target: Option<nat>,
    classpath: seq<string>, extraClasspath: seq<string>, modulePath: seq<string>, sourceDirs: seq<string>,
    javacFlags: seq<string>, extraJavacArgs: seq<string>, sources: seq<string>, extraSources: seq<string>,
    environment: map<string, string>)

  datatype RunRequest = RunRequest(
    root: string, classesDir: string, classpath: seq<string>, extraClasspath: seq<string>, modulePath: seq<string>,
    jvmArgs: seq<string>, mainClass: string, programArgs: seq<string>, environment: map<string, string>)

  // A manifest path for a process running in `root`.
  function Resolved(root: string, path: string): string {
    if Absolute(path) then path else if Absolute(root) then JoinPath(root, path) else path
  }

  function ResolvedAll(root: string, paths: seq<string>): (r: seq<string>)
    ensures |r| == |paths|
  {
    seq(|paths|, i requires 0 <= i < |paths| => Resolved(root, paths[i]))
  }

  function NumberOption(option: string, value: Option<nat>): seq<string> {
    if value.Some? then [option, RuntimeTable.Digits(value.value)] else []
  }

  function PathOption(option: string, entries: seq<string>, separator: char): seq<string> {
    if entries == [] then [] else [option, Join(entries, separator)]
  }

  // The Java version: a release, or what there is of a source and a target level.
  function LevelOptions(req: CompileRequest): seq<string> {
    if req.release.Some? then NumberOption("--release", req.release)
    else NumberOption("--source", req.source) + NumberOption("--target", req.target)
  }

  function PathOptions(req: CompileRequest, separator: char): seq<string> {
    PathOption("-classpath", ResolvedAll(req.root, req.classpath) + req.extraClasspath, separator)
    + PathOption("--module-path", req.modulePath, separator)
    + PathOption("-sourcepath", ResolvedAll(req.root, req.sourceDirs), separator)
  }

  function CompileOptions(req: CompileRequest, separator: char): seq<string> {
    ["-d", Resolved(req.root, req.classesDir)] + LevelOptions(req) + PathOptions(req, separator)
  }

  function Build(req: CompileRequest, separator: char): Invocation {
    Invocation("javac",
               CompileOptions(req, separator) + (req.javacFlags + req.extraJavacArgs)
               + (req.sources + req.extraSources),
               req.root, req.environment)
  }

  function RunClasspath(req: RunRequest, separator: char): string {
    Join([Resolved(req.root, req.classesDir)] + ResolvedAll(req.root, req.classpath) + req.extraClasspath, separator)
  }

  // Everything up to the main class.
  function RunOptions(req: RunRequest, separator: char): seq<string> {
    PathOption("--module-path", req.modulePath, separator) + req.jvmArgs
    + ["-cp", RunClasspath(req, separator), req.mainClass]
  }

  function Run(req: RunRequest, separator: char): Invocation {
    Invocation("java", RunOptions(req, separator) + req.programArgs, req.root, req.environment)
  }

  // Below an absolute root a relative path is spelled from it, with one separator between them; any
  // other path is kept.
  lemma ResolvedExactly(root: string, path: string)
    requires path == "" || path[0] != '/'
    ensures root != "" && root[0] == '/' && root[|root| - 1] != '/' ==> Resolved(root, path) == root + "/" + path
    ensures root != "" && root[0] == '/' && root[|root| - 1] == '/' ==> Resolved(root, path) == root + path
    ensures root == "" || root[0] != '/' ==> Resolved(root, path) == path
    ensures Resolved(root, "/" + path) == "/" + path
  {
  }

  // ---- What a plan says ----

  // The value an option is given, options coming as names each followed by its value.
  function Value(options: seq<string>, name: string): Option<string>
    decreases |options|
  {
    if |options| < 2 then None
    else if options[0] == name then Some(options[1])
    else Value(options[2..], name)
  }

  lemma {:induction false} ValueConcat(a: seq<string>, b: seq<string>, name: string)
    requires |a| % 2 == 0
    ensures Value(a + b, name) == if Value(a, name).Some? then Value(a, name) else Value(b, name)
    decreases |a|
  {
    if a == [] {
      assert a + b == b;
    } else {
      assert (a + b)[2..] == a[2..] + b;
      ValueConcat(a[2..], b, name);
    }
  }

  // What the request asks an option to say, for the options that have a value: the classes directory,
  // a Java version, the three kinds of paths.
  function Asked(req: CompileRequest, separator: char, name: string): Option<string> {
    if name == "-d" then Some(Resolved(req.root, req.classesDir))
    else if AskedLevel(req, name).Some? then AskedLevel(req, name)
    else AskedPaths(req, separator, name)
  }

  function AskedLevel(req: CompileRequest, name: string): Option<string> {
    if name == "--release" then LevelText(req.release)
    else if name == "--source" then (if req.release.None? then LevelText(req.source) else None)
    else if name == "--target" then (if req.release.None? then LevelText(req.target) else None)
    else None
  }

  function AskedPaths(req: CompileRequest, separator: char, name: string): Option<string> {
    if name == "-classpath" then Listed(ResolvedAll(req.root, req.classpath) + req.extraClasspath, separator)
    else if name == "--module-path" then Listed(req.modulePath, separator)
    else if name == "-sourcepath" then Listed(ResolvedAll(req.root, req.sourceDirs), separator)
    else None
  }

  function LevelText(number: Option<nat>): Option<string> {
    if number.None? then None else Some(RuntimeTable.Decimal(number.value))
  }

  function Listed(entries: seq<string>, separator: char): Option<string> {
    if entries == [] then None else Some(Join(entries, separator))
  }

  // A list that is passed names its entries, in order, when none holds the separator.
  lemma ListedReads(entries: seq<string>, separator: char)
    requires forall entry <- entries :: separator !in entry
    ensures entries != [] ==>
      Listed(entries, separator).Some? && Split(Listed(entries, separator).value, separator) == entries
  {
    if entries != [] {
      SplitJoin(entries, separator);
    }
  }

  lemma LevelValues(req: CompileRequest, name: string)
    ensures |LevelOptions(req)| % 2 == 0 && Value(LevelOptions(req), name) == AskedLevel(req, name)
  {
    ValueConcat(NumberOption("--source", req.source), NumberOption("--target", req.target), name);
  }

  lemma PathValue(option: string, entries: seq<string>, separator: char, name: string)
    ensures |PathOption(option, entries, separator)| % 2 == 0
    ensures Value(PathOption(option, entries, separator), name) ==
      if name == option then Listed(entries, separator) else None
  {
  }

  lemma PathValues(req: CompileRequest, separator: char, name: string)
    ensures |PathOptions(req, separator)| % 2 == 0
    ensures Value(PathOptions(req, separator), name) == AskedPaths(req, separator, name)
  {
    var classpath := ResolvedAll(req.root, req.classpath) + req.extraClasspath;
    var sourcepath := ResolvedAll(req.root, req.sourceDirs);
    PathValue("-classpath", classpath, separator, name);
    PathValue("--module-path", req.modulePath, separator, name);
    PathValue("-sourcepath", sourcepath, separator, name);
    ThreeValues(PathOption("-classpath", classpath, separator), PathOption("--module-path", req.modulePath, separator),
                PathOption("-sourcepath", sourcepath, separator), name);
  }

  lemma ThreeValues(a: seq<string>, b: seq<string>, c: seq<string>, name: string)
    requires |a| % 2 == 0 && |b| % 2 == 0
    ensures Value(a + b + c, name) ==
      if Value(a, name).Some? then Value(a, name)
      else if Value(b, name).Some? then Value(b, name)
      else Value(c, name)
  {
    ValueConcat(a + b, c, name);
    ValueConcat(a, b, name);
  }

  lemma OptionsSay(req: CompileRequest, separator: char, name: string)
    ensures |CompileOptions(req, separator)| % 2 == 0
    ensures Value(CompileOptions(req, separator), name) == Asked(req, separator, name)
  {
    LevelValues(req, name);
    PathValues(req, separator, name);
    DirectoryFirst(Resolved(req.root, req.classesDir), LevelOptions(req), PathOptions(req, separator), name);
  }

  lemma DirectoryFirst(directory: string, level: seq<string>, paths: seq<string>, name: string)
    requires |level| % 2 == 0 && |paths| % 2 == 0
    ensures |["-d", directory] + level + paths| % 2 == 0
    ensures Value(["-d", directory] + level + paths, name) ==
      if name == "-d" then Some(directory)
      else if Value(level, name).Some? then Value(level, name)
      else Value(paths, name)
  {
    ThreeValues(["-d", directory], level, paths, name);
    OneValue("-d", directory, name);
  }

  lemma OneValue(option: string, value: string, name: string)
    ensures Value([option, value], name) == if name == option then Some(value) else None
  {
  }

  lemma InFront<T>(a: seq<T>, b: seq<T>, c: seq<T>, d: seq<T>, e: seq<T>)
    ensures var all := a + (b + c) + (d + e); all[..|a|] == a && all[|a|..] == b + c + d + e
  {
  }

  // A planned compile gives each option the value the request has for it, and no other option, before
  // the manifest's flags and the script's, before the project's sources and its dependencies'.
  lemma BuildSays(req: CompileRequest, separator: char, name: string) returns (options: seq<string>)
    ensures var plan := Build(req, separator);
      && plan.program == "javac" && plan.workingDir == req.root && plan.environment == req.environment
      && |options| % 2 == 0 && Value(options, name) == Asked(req, separator, name)
      && |options| <= |plan.args| && plan.args[..|options|] == options
      && plan.args[|options|..] == req.javacFlags + req.extraJavacArgs + req.sources + req.extraSources
  {
    options := CompileOptions(req, separator);
    OptionsSay(req, separator, name);
    InFront(options, req.javacFlags, req.extraJavacArgs, req.sources, req.extraSources);
  }

  // A planned run starts with the module path, if there is one, and ends with the class path, the main
  // class and the program's arguments; the classes directory comes first on that class path, then the
  // manifest's entries and the dependencies'.
  lemma RunSays(req: RunRequest, separator: char, entries: seq<string>) returns (classpath: string)
    requires entries == [Resolved(req.root, req.classesDir)] + ResolvedAll(req.root, req.classpath) + req.extraClasspath
    ensures (forall entry <- entries :: separator !in entry) ==> Split(classpath, separator) == entries
    ensures var plan := Run(req, separator);
      && plan.program == "java" && plan.workingDir == req.root && plan.environment == req.environment
      && plan.args == (if req.modulePath == [] then [] else ["--module-path", Join(req.modulePath, separator)])
                      + req.jvmArgs + ["-cp", classpath, req.mainClass] + req.programArgs
  {
    classpath := Join(entries, separator);
    if forall entry <- entries :: separator !in entry {
      SplitJoin(entries, separator);
    }
  }

  // A planned path leads the tool, running in the root, where the manifest path leads from the root:
  // a relative root is applied once.
  lemma ResolvedOnce(host: Place, root: string, path: string)
    ensures var dir := Resolve(host, root); Resolve(dir, Resolved(root, path)) == Resolve(dir, path)
  {
    var dir := Resolve(host, root);
    if !Absolute(path) && Absolute(root) {
      ResolveJoin(dir, root, path);
    }
  }

  // ---- How the tools read a command line ----

  // The `java` launcher on its way to the main class, past which it opens no argument file. It may be
  // waiting for the value of an option.
  datatype Launcher = Open(awaiting: bool) | Closed

  // A release, the options its launcher takes a separate value for, and the state `JDK_JAVA_OPTIONS`
  // leaves the launcher in. The file after `-jar` and the module after `-m` count as main classes, so
  // those two are not among the options.
  datatype Jdk = Jdk(release: nat, takesValue: set<string>, start: Launcher)

  function Seen(jdk: Jdk, l: Launcher, arg: string): Launcher {
    match l
    case Closed => Closed
    case Open(awaiting) =>
      if arg != "" && arg[0] == '-' then
        if arg == "--disable-@files" || "--module=" <= arg then Closed else Open(arg in jdk.takesValue)
      else if awaiting then Open(false)
      else Closed
  }

  // What an argument does to a launcher that still looks: an option may announce a value, two options
  // end the looking, and so does a word that is no announced value.
  lemma LauncherRules(jdk: Jdk, awaiting: bool, name: string, option: string, word: string)
    requires option != "" && option[0] == '-' && option != "--disable-@files" && !("--module=" <= option)
    requires word == "" || word[0] != '-'
    ensures Seen(jdk, Open(awaiting), "--disable-@files") == Closed
    ensures Seen(jdk, Open(awaiting), "--module=" + name) == Closed
    ensures Seen(jdk, Open(awaiting), option) == Open(option in jdk.takesValue)
    ensures Seen(jdk, Open(awaiting), word) == if awaiting then Open(false) else Closed
    ensures Seen(jdk, Closed, word) == Seen(jdk, Closed, option) == Closed
  {
  }

  function SeenAll(jdk: Jdk, l: Launcher, args: seq<string>): Launcher
    decreases |args|
  {
    if args == [] then l else SeenAll(jdk, Seen(jdk, l, args[0]), args[1..])
  }

  // Where reading `args`, references expanded, leaves the launcher.
  function After(jdk: Jdk, l: Launcher, dir: Place, files: map<Place, string>, args: seq<string>): Launcher
    decreases |args|
  {
    if args == [] || l.Closed? then l
    else After(jdk, SeenAll(jdk, l, Expansion(dir, files, args[0])), dir, files, args[1..])
  }

  // How many of `args` the launcher reads as possible references.
  function Opened(jdk: Jdk, l: Launcher, dir: Place, files: map<Place, string>, args: seq<string>): (n: nat)
    ensures n <= |args|
    decreases |args|
  {
    if args == [] || l.Closed? then 0
    else 1 + Opened(jdk, SeenAll(jdk, l, Expansion(dir, files, args[0])), dir, files, args[1..])
  }

  // `javac` reads all of its arguments so, whatever the release; `java` does since JDK 9.
  function Reach(tool: Tool, jdk: Jdk, dir: Place, files: map<Place, string>, args: seq<string>): (n: nat)
    ensures n <= |args|
  {
    match tool
    case Javac => |args|
    case Java => if jdk.release >= 9 then Opened(jdk, jdk.start, dir, files, args) else 0
  }

  predicate ReadsArgumentFiles(tool: Tool, jdk: Jdk) {
    tool.Javac? || (jdk.release >= 9 && jdk.start.Open?)
  }

  // `-J` options are the launcher's own, and `javac`'s takes them from the command line alone.
  predicate LauncherOption(arg: string) {
    |arg| >= 2 && arg[0] == '-' && arg[1] == 'J'
  }

  function LauncherOptions(args: seq<string>): seq<string> {
    if args == [] then []
    else (if LauncherOption(args[0]) then [args[0]] else []) + LauncherOptions(args[1..])
  }

  function ToolArguments(args: seq<string>): seq<string> {
    if args == [] then []
    else (if LauncherOption(args[0]) then [] else [args[0]]) + ToolArguments(args[1..])
  }

  // What its own launcher takes, and what the tool itself is given.
  datatype Understood = Understood(launcher: seq<string>, tool: seq<string>)

  function Meaning(tool: Tool, jdk: Jdk, dir: Place, files: map<Place, string>, args: seq<string>): Understood {
    match tool
    case Javac => Understood(LauncherOptions(args), Effective(dir, files, ToolArguments(args)))
    case Java =>
      var n := Reach(Java, jdk, dir, files, args);
      Understood([], Effective(dir, files, args[..n]) + args[n..])
  }

  // ---- What a spilled invocation means ----

  lemma OneReference(tool: Tool, jdk: Jdk, dir: Place, files: map<Place, string>, reference: string)
    requires reference != "" && reference[0] == '@'
    ensures Meaning(tool, jdk, dir, files, [reference])
         == Understood([], if ReadsArgumentFiles(tool, jdk) then Effective(dir, files, [reference]) else [reference])
  {
    assert [reference][1..] == [] && [reference][..0] == [] && [reference][0..] == [reference];
    if tool.Javac? {
      assert ToolArguments([reference]) == [reference] && LauncherOptions([reference]) == [];
    } else if ReadsArgumentFiles(tool, jdk) {
      assert Opened(jdk, jdk.start, dir, files, [reference]) == 1;
      assert [reference][..1] == [reference];
      assert Effective(dir, files, [reference]) + [] == Effective(dir, files, [reference]);
    } else {
      assert Effective(dir, files, []) == [] && [] + [reference] == [reference];
    }
  }

  // The spilled reference means the spilled arguments exactly when the tool reads argument files and
  // finds this one; otherwise it means what it already meant before the file was written.
  lemma SpilledMeaning(host: Place, files: map<Place, string>, tool: Tool, jdk: Jdk, invocation: Invocation)
    requires Spillable(invocation)
    ensures var (r, after) := Spill(host, files, true, tool, invocation);
      var dir := Resolve(host, invocation.workingDir);
      && r.Ok? && r.value.args == ["@" + ArgumentPath(invocation.workingDir, tool)]
      && Meaning(tool, jdk, dir, after, r.value.args) ==
           if ReadsArgumentFiles(tool, jdk) && Findable(host, invocation.workingDir)
           then Understood([], invocation.args)
           else Meaning(tool, jdk, dir, files, r.value.args)
  {
    var (r, after) := Spill(host, files, true, tool, invocation);
    var dir := Resolve(host, invocation.workingDir);
    var reference := "@" + ArgumentPath(invocation.workingDir, tool);
    SpilledEffective(host, files, tool, invocation);
    OneReference(tool, jdk, dir, after, reference);
    OneReference(tool, jdk, dir, files, reference);
  }

  // A root given as `project` is lost: the file is written in `project/target`, and the tool, already
  // in `project`, looks in `project/project/target`.
  lemma RelativeRootLoses(host: Place, files: map<Place, string>, tool: Tool, jdk: Jdk, invocation: Invocation)
    requires Spillable(invocation) && invocation.workingDir == "project"
    requires Below(host + ["project", "project"], tool) !in files
    ensures var (r, after) := Spill(host, files, true, tool, invocation);
      && Resolve(host, "project") == host + ["project"]
      && Below(host + ["project"], tool) in after
      && Resolve(host + ["project"], ArgumentPath("project", tool)) == Below(host + ["project", "project"], tool)
      && Meaning(tool, jdk, host + ["project"], after, r.value.args)
           == Understood([], ["@" + ArgumentPath("project", tool)])
  {
    var reference := "@" + ArgumentPath("project", tool);
    ProjectPlaces(host);
    SpilledMeaning(host, files, tool, jdk, invocation);
    ArgumentPlace(host, "project", tool);
    ArgumentPlace(host + ["project"], "project", tool);
    ReferenceShape("project", tool);
    EffectiveOne(host + ["project"], files, reference);
    OneReference(tool, jdk, host + ["project"], files, reference);
  }

  // A run on JDK 8 is left with the bare reference, wherever the file is.
  lemma OldJavaLoses(host: Place, files: map<Place, string>, jdk: Jdk, invocation: Invocation)
    requires Spillable(invocation) && jdk.release < 9
    ensures var (r, after) := Spill(host, files, true, Java, invocation);
      Meaning(Java, jdk, Resolve(host, invocation.workingDir), after, r.value.args)
        == Understood([], ["@" + ArgumentPath(invocation.workingDir, Java)])
  {
    var reference := "@" + ArgumentPath(invocation.workingDir, Java);
    SpilledMeaning(host, files, Java, jdk, invocation);
    OneReference(Java, jdk, Resolve(host, invocation.workingDir), files, reference);
  }

  // ---- When spilling keeps what an invocation meant ----

  // An argument the tool replaces.
  predicate Active(dir: Place, files: map<Place, string>, arg: string) {
    Expansion(dir, files, arg) != [arg]
  }

  // Some argument expands to an active argument of the very same list.
  predicate ListsOwnReference(dir: Place, files: map<Place, string>, args: seq<string>) {
    exists a <- args, b <- args :: Active(dir, files, a) && a in Expansion(dir, files, b)
  }

  lemma {:induction false} InertArguments(dir: Place, files: map<Place, string>, args: seq<string>)
    requires forall arg <- args :: !Active(dir, files, arg)
    ensures Effective(dir, files, args) == args
    decreases |args|
  {
    if args != [] {
      assert args[0] in args;
      InertArguments(dir, files, args[1..]);
    }
  }

  lemma {:induction false} TokenOrigin(dir: Place, files: map<Place, string>, args: seq<string>, token: string)
    requires token in Effective(dir, files, args)
    ensures exists b <- args :: token in Expansion(dir, files, b)
    decreases |args|
  {
    if token in Expansion(dir, files, args[0]) {
      assert args[0] in args;
    } else {
      TokenOrigin(dir, files, args[1..], token);
    }
  }

  // Arguments that mean themselves are all inert, unless one lists another.
  lemma {:induction false} KeptArguments(dir: Place, files: map<Place, string>, args: seq<string>)
    requires Effective(dir, files, args) == args && !ListsOwnReference(dir, files, args)
    ensures forall arg <- args :: !Active(dir, files, arg)
    decreases |args|
  {
    if args != [] {
      var head, tail := args[0], args[1..];
      assert args == [head] + tail && head in args;
      if !Active(dir, files, head) {
        assert Effective(dir, files, args)[1..] == Effective(dir, files, tail);
        KeptArguments(dir, files, tail);
      } else {
        TokenOrigin(dir, files, args, head);
      }
    }
  }

  lemma {:induction false} NoLauncherOptions(args: seq<string>)
    ensures LauncherOptions(args) == [] <==> forall arg <- args :: !LauncherOption(arg)
    ensures LauncherOptions(args) == [] ==> ToolArguments(args) == args
    decreases |args|
  {
    if args != [] {
      assert args == [args[0]] + args[1..];
      NoLauncherOptions(args[1..]);
    }
  }

  // A command line a file can stand for: nothing on it is replaced, and `javac`'s launcher takes
  // nothing from it.
  predicate Portable(tool: Tool, jdk: Jdk, dir: Place, files: map<Place, string>, args: seq<string>) {
    && (forall arg <- args[..Reach(tool, jdk, dir, files, args)] :: !Active(dir, files, arg))
    && (tool.Javac? ==> forall arg <- args :: !LauncherOption(arg))
  }

  // Whether a command line means its own arguments and nothing besides.
  lemma MeansItself(tool: Tool, jdk: Jdk, dir: Place, files: map<Place, string>, args: seq<string>)
    ensures var seen := args[..Reach(tool, jdk, dir, files, args)];
      Meaning(tool, jdk, dir, files, args) == Understood([], args) <==>
        && Effective(dir, files, seen) == seen
        && (tool.Javac? ==> forall arg <- args :: !LauncherOption(arg))
  {
    var n := Reach(tool, jdk, dir, files, args);
    if tool.Javac? {
      NoLauncherOptions(args);
      assert args[..n] == args;
    } else {
      assert args[..n] + args[n..] == args;
      SameTail(Effective(dir, files, args[..n]), args[..n], args[n..]);
    }
  }

  lemma SameTail<T>(a: seq<T>, b: seq<T>, tail: seq<T>)
    ensures a + tail == b + tail <==> a == b
  {
    if a + tail == b + tail {
      assert |a| == |b| && (a + tail)[..|a|] == a && (b + tail)[..|b|] == b;
    }
  }

  // For every invocation that is spilled where the tool finds and reads the file: a portable one keeps
  // its meaning, one with a `-J` option for `javac` never does, and any other does not unless one of
  // its arguments expands to another.
  lemma SpillKeepsMeaning(host: Place, files: map<Place, string>, tool: Tool, jdk: Jdk, invocation: Invocation)
    requires Spillable(invocation)
    requires ReadsArgumentFiles(tool, jdk) && Findable(host, invocation.workingDir)
    ensures var (r, after) := Spill(host, files, true, tool, invocation);
      var dir := Resolve(host, invocation.workingDir);
      var seen := invocation.args[..Reach(tool, jdk, dir, files, invocation.args)];
      var kept := Meaning(tool, jdk, dir, after, r.value.args) == Meaning(tool, jdk, dir, files, invocation.args);
      && (Portable(tool, jdk, dir, files, invocation.args) ==> kept)
      && (tool.Javac? && (exists arg <- invocation.args :: LauncherOption(arg)) ==> !kept)
      && (!ListsOwnReference(dir, files, seen) ==> (kept <==> Portable(tool, jdk, dir, files, invocation.args)))
  {
    var dir := Resolve(host, invocation.workingDir);
    var seen := invocation.args[..Reach(tool, jdk, dir, files, invocation.args)];
    SpilledMeaning(host, files, tool, jdk, invocation);
    MeansItself(tool, jdk, dir, files, invocation.args);
    if forall arg <- seen :: !Active(dir, files, arg) {
      InertArguments(dir, files, seen);
    }
    if Effective(dir, files, seen) == seen && !ListsOwnReference(dir, files, seen) {
      KeptArguments(dir, files, seen);
    }
  }

  // ---- Runs: program arguments are nobody's references ----

  lemma {:induction false} AfterConcat(jdk: Jdk, l: Launcher, dir: Place, files: map<Place, string>, a: seq<string>,
                                       b: seq<string>)
    ensures After(jdk, l, dir, files, a + b) == After(jdk, After(jdk, l, dir, files, a), dir, files, b)
    decreases |a|
  {
    if a == [] {
      assert a + b == b;
    } else {
      assert (a + b)[0] == a[0] && (a + b)[1..] == a[1..] + b;
      AfterConcat(jdk, SeenAll(jdk, l, Expansion(dir, files, a[0])), dir, files, a[1..], b);
    }
  }

  lemma {:induction false} OpenedPrefix(jdk: Jdk, l: Launcher, dir: Place, files: map<Place, string>, a: seq<string>,
                                        b: seq<string>)
    requires After(jdk, l, dir, files, a).Closed?
    ensures Opened(jdk, l, dir, files, a + b) == Opened(jdk, l, dir, files, a)
    decreases |a|
  {
    if a != [] && l.Open? {
      assert (a + b)[0] == a[0] && (a + b)[1..] == a[1..] + b;
      OpenedPrefix(jdk, SeenAll(jdk, l, Expansion(dir, files, a[0])), dir, files, a[1..], b);
    }
  }

  // A word neither an option nor a reference.
  predicate PlainWord(word: string) {
    word == "" || (word[0] != '-' && word[0] != '@')
  }

  lemma AfterOne(jdk: Jdk, l: Launcher, dir: Place, files: map<Place, string>, word: string)
    requires word == "" || word[0] != '@'
    ensures After(jdk, l, dir, files, [word]) == Seen(jdk, l, word)
  {
    var next := Seen(jdk, l, word);
    assert Expansion(dir, files, word) == [word] && [word][1..] == [];
    assert SeenAll(jdk, l, [word]) == SeenAll(jdk, next, []) == next;
    assert After(jdk, next, dir, files, []) == next;
  }

  lemma MainClassCloses(jdk: Jdk, l: Launcher, dir: Place, files: map<Place, string>, classpath: string,
                        mainClass: string)
    requires "-cp" in jdk.takesValue && PlainWord(classpath) && PlainWord(mainClass)
    ensures After(jdk, l, dir, files, ["-cp"] + ([classpath] + [mainClass])).Closed?
  {
    AfterConcat(jdk, l, dir, files, ["-cp"], [classpath] + [mainClass]);
    AfterOne(jdk, l, dir, files, "-cp");
    assert "-cp"[1] == 'c' && "--disable-@files"[1] == '-' && "--module="[1] == '-';
    var waiting := Seen(jdk, l, "-cp");
    AfterConcat(jdk, waiting, dir, files, [classpath], [mainClass]);
    AfterOne(jdk, waiting, dir, files, classpath);
    AfterOne(jdk, Seen(jdk, waiting, classpath), dir, files, mainClass);
  }

  lemma RunCloses(jdk: Jdk, dir: Place, files: map<Place, string>, req: RunRequest, separator: char)
    requires "-cp" in jdk.takesValue && PlainWord(RunClasspath(req, separator)) && PlainWord(req.mainClass)
    ensures After(jdk, jdk.start, dir, files, RunOptions(req, separator)).Closed?
  {
    var options := PathOption("--module-path", req.modulePath, separator) + req.jvmArgs;
    var main := ["-cp"] + ([RunClasspath(req, separator)] + [req.mainClass]);
    assert RunOptions(req, separator) == options + main;
    AfterConcat(jdk, jdk.start, dir, files, options, main);
    MainClassCloses(jdk, After(jdk, jdk.start, dir, files, options), dir, files, RunClasspath(req, separator),
                    req.mainClass);
  }

  lemma ReachOfRun(jdk: Jdk, dir: Place, files: map<Place, string>, req: RunRequest, separator: char)
    requires "-cp" in jdk.takesValue && PlainWord(RunClasspath(req, separator)) && PlainWord(req.mainClass)
    ensures Reach(Java, jdk, dir, files, Run(req, separator).args)
         == Reach(Java, jdk, dir, files, RunOptions(req, separator))
  {
    RunCloses(jdk, dir, files, req, separator);
    OpenedPrefix(jdk, jdk.start, dir, files, RunOptions(req, separator), req.programArgs);
  }

  // The program is given its arguments as they are, whatever they look like.
  lemma ProgramArgumentsVerbatim(jdk: Jdk, dir: Place, files: map<Place, string>, req: RunRequest, separator: char)
    requires "-cp" in jdk.takesValue && PlainWord(RunClasspath(req, separator)) && PlainWord(req.mainClass)
    ensures Meaning(Java, jdk, dir, files, Run(req, separator).args)
         == Understood([], Meaning(Java, jdk, dir, files, RunOptions(req, separator)).tool + req.programArgs)
  {
    var options, args := RunOptions(req, separator), Run(req, separator).args;
    var n := Reach(Java, jdk, dir, files, options);
    ReachOfRun(jdk, dir, files, req, separator);
    assert args[..n] == options[..n] && args[n..] == options[n..] + req.programArgs;
    assert Effective(dir, files, options[..n]) + (options[n..] + req.programArgs)
        == Effective(dir, files, options[..n]) + options[n..] + req.programArgs;
  }

  // So a run is spilled safely, whatever its program arguments, when nothing before them looks like a
  // reference.
  lemma PlainRunKept(host: Place, files: map<Place, string>, jdk: Jdk, req: RunRequest, separator: char)
    requires "-cp" in jdk.takesValue && PlainWord(RunClasspath(req, separator)) && PlainWord(req.mainClass)
    requires Spillable(Run(req, separator))
    requires ReadsArgumentFiles(Java, jdk) && Findable(host, req.root)
    requires forall arg <- RunOptions(req, separator) :: arg == "" || arg[0] != '@'
    ensures var (r, after) := Spill(host, files, true, Java, Run(req, separator));
      Meaning(Java, jdk, Resolve(host, req.root), after, r.value.args)
        == Meaning(Java, jdk, Resolve(host, req.root), files, Run(req, separator).args)
        == Understood([], RunOptions(req, separator) + req.programArgs)
  {
    var dir := Resolve(host, req.root);
    var options, args := RunOptions(req, separator), Run(req, separator).args;
    ReachOfRun(jdk, dir, files, req, separator);
    var n := Reach(Java, jdk, dir, files, args);
    assert args[..n] == options[..n];
    forall arg | arg in args[..n] ensures !Active(dir, files, arg) {
      assert arg in options;
    }
    SpillKeepsMeaning(host, files, Java, jdk, Run(req, separator));
    SpilledMeaning(host, files, Java, jdk, Run(req, separator));
  }

  // ---- Compiles that spilling changes, and one it only seems to ----

  const PACKAGE := "/proj/src/main/java/com/example/M"

  // A thousand sources, `M000.java` to `M999.java`.
  function SourceName(i: nat): string
    requires i < 1000
  {
    PACKAGE + Number(i) + ".java"
  }

  function Number(i: nat): string
    requires i < 1000
  {
    [RuntimeTable.Digit(i / 100), RuntimeTable.Digit(i / 10 % 10), RuntimeTable.Digit(i % 10)]
  }

  function Sources(): (r: seq<string>)
    ensures |r| == 1000 && forall i :: 0 <= i < 1000 ==> r[i] == SourceName(i)
  {
    seq(1000, i requires 0 <= i < 1000 => SourceName(i))
  }

  // The plan of compiling them below `/proj` with these flags.
  function LargeRequest(flags: seq<string>): CompileRequest {
    CompileRequest("/proj", "target/classes", None, None, None, [], [], [], ["src/main/java"], flags, [], Sources(), [],
                   map[])
  }

  function LargeCompile(flags: seq<string>): Invocation {
    Build(LargeRequest(flags), ':')
  }

  const PREAMBLE: seq<string> := ["-d", "/proj/target/classes", "-sourcepath", "/proj/src/main/java"]

  lemma LargeCompileArgs(flags: seq<string>)
    ensures LargeCompile(flags).args == PREAMBLE + flags + Sources()
  {
    LargeCompileOptions(flags);
    assert flags + [] == flags && Sources() + [] == Sources();
  }

  lemma ResolvedUnderProject()
    ensures Resolved("/proj", "target/classes") == "/proj/target/classes"
    ensures Resolved("/proj", "src/main/java") == "/proj/src/main/java"
  {
  }

  lemma LargeCompileOptions(flags: seq<string>)
    ensures CompileOptions(LargeRequest(flags), ':') == PREAMBLE
  {
    ResolvedUnderProject();
    assert ResolvedAll("/proj", ["src/main/java"]) == ["/proj/src/main/java"];
  }

  // The sources are told apart by their numbers.
  lemma SourcesDistinct(i: nat, j: nat)
    requires i < 1000 && j < 1000 && Sources()[i] == Sources()[j]
    ensures i == j
  {
    Infix(PACKAGE, Number(i), Number(j), ".java");
    NumbersDistinct(i, j);
  }

  lemma Infix(before: string, a: string, b: string, after: string)
    requires |a| == |b| && before + a + after == before + b + after
    ensures a == b
  {
    assert (before + a + after)[|before|..|before| + |a|] == a;
    assert (before + b + after)[|before|..|before| + |a|] == b;
  }

  lemma DigitsDistinct(a: nat, b: nat)
    requires a < 10 && b < 10 && RuntimeTable.Digit(a) == RuntimeTable.Digit(b)
    ensures a == b
  {
  }

  lemma PartsDistinct(i: nat, j: nat)
    requires i / 100 == j / 100 && i / 10 % 10 == j / 10 % 10 && i % 10 == j % 10
    ensures i == j
  {
    assert i / 10 == 10 * (i / 100) + i / 10 % 10 && j / 10 == 10 * (j / 100) + j / 10 % 10;
  }

  lemma NumbersDistinct(i: nat, j: nat)
    requires i < 1000 && j < 1000 && Number(i) == Number(j)
    ensures i == j
  {
    var a, b := Number(i), Number(j);
    assert a[0] == b[0] && a[1] == b[1] && a[2] == b[2];
    DigitsDistinct(i / 100, j / 100);
    DigitsDistinct(i / 10 % 10, j / 10 % 10);
    DigitsDistinct(i % 10, j % 10);
    PartsDistinct(i, j);
  }

  lemma {:induction false} LengthAtLeast(s: string)
    ensures Length(s) >= |s|
    decreases |s|
  {
    if s != "" {
      LengthAtLeast(s[1..]);
    }
  }

  lemma {:induction false} ArgsLengthAtLeast(args: seq<string>)
    requires forall arg <- args :: |arg| >= 32
    ensures ArgsLength(args) >= 33 * |args|
    decreases |args|
  {
    if args != [] {
      var init := args[..|args| - 1];
      assert args[|args| - 1] in args && forall other <- init :: other in args;
      LengthAtLeast(args[|args| - 1]);
      ArgsLengthAtLeast(init);
    }
  }

  lemma SourcesLong()
    ensures ArgsLength(Sources()) > MAX_COMMAND_LINE_BYTES
  {
    forall arg <- Sources() ensures |arg| >= 32 {
      var i :| 0 <= i < 1000 && Sources()[i] == arg;
      SourceShape(i);
    }
    ArgsLengthAtLeast(Sources());
  }

  // A path of plain text, neither an option nor a reference.
  predicate PlainPath(arg: string) {
    arg != "" && arg[0] != '@' && arg[0] != '-' && !HasTerminator(arg)
  }

  lemma SourceShape(i: nat)
    requires i < 1000
    ensures |SourceName(i)| >= 32 && PlainPath(SourceName(i))
  {
    assert |PACKAGE| >= 32 && PACKAGE[0] == '/' && SourceName(i)[0] == PACKAGE[0];
    PackageIsText();
    assert !HasTerminator(Number(i));
    TextConcat(PACKAGE, Number(i));
    TextConcat(PACKAGE + Number(i), ".java");
  }

  lemma TextConcat(a: string, b: string)
    ensures HasTerminator(a + b) <==> HasTerminator(a) || HasTerminator(b)
  {
  }

  lemma PackageIsText()
    ensures !HasTerminator(PACKAGE) && !HasTerminator(".java")
  {
  }

  lemma SourcesPlain()
    ensures forall arg <- Sources() :: PlainPath(arg)
  {
    forall arg <- Sources() ensures PlainPath(arg) {
      var i :| 0 <= i < 1000 && Sources()[i] == arg;
      SourceShape(i);
    }
  }

  lemma PreambleText()
    ensures forall arg <- PREAMBLE :: !HasTerminator(arg)
  {
  }

  lemma PreamblePlain()
    ensures forall arg <- PREAMBLE :: arg != "" && arg[0] != '@' && !LauncherOption(arg)
  {
  }

  lemma LargeCompileSpills(flags: seq<string>)
    requires forall flag <- flags :: !HasTerminator(flag)
    ensures Spillable(LargeCompile(flags))
  {
    LargeCompileArgs(flags);
    SourcesLong();
    ArgsLengthConcat(PREAMBLE + flags, Sources());
    PreambleText();
    SourcesPlain();
    var args := LargeCompile(flags).args;
    assert forall arg <- args :: arg in PREAMBLE || arg in flags || arg in Sources();
  }

  lemma {:induction false} EffectiveConcat(dir: Place, files: map<Place, string>, a: seq<string>, b: seq<string>)
    ensures Effective(dir, files, a + b) == Effective(dir, files, a) + Effective(dir, files, b)
    decreases |a|
  {
    if a == [] {
      assert a + b == b;
    } else {
      assert (a + b)[0] == a[0] && (a + b)[1..] == a[1..] + b;
      EffectiveConcat(dir, files, a[1..], b);
    }
  }

  lemma {:induction false} LauncherConcat(a: seq<string>, b: seq<string>)
    ensures LauncherOptions(a + b) == LauncherOptions(a) + LauncherOptions(b)
    decreases |a|
  {
    if a == [] {
      assert a + b == b;
    } else {
      assert (a + b)[0] == a[0] && (a + b)[1..] == a[1..] + b;
      LauncherConcat(a[1..], b);
    }
  }

  lemma {:induction false} ToolConcat(a: seq<string>, b: seq<string>)
    ensures ToolArguments(a + b) == ToolArguments(a) + ToolArguments(b)
    decreases |a|
  {
    if a == [] {
      assert a + b == b;
    } else {
      assert (a + b)[0] == a[0] && (a + b)[1..] == a[1..] + b;
      ToolConcat(a[1..], b);
    }
  }

  lemma PlainMeaning(dir: Place, files: map<Place, string>, args: seq<string>)
    requires forall arg <- args :: arg != "" && arg[0] != '@' && !LauncherOption(arg)
    ensures LauncherOptions(args) == [] && ToolArguments(args) == args && Effective(dir, files, args) == args
  {
    NoLauncherOptions(args);
    InertArguments(dir, files, args);
  }

  // On the command line, only its flags mean anything but themselves.
  lemma LargeMeaning(jdk: Jdk, dir: Place, files: map<Place, string>, flags: seq<string>)
    ensures Meaning(Javac, jdk, dir, files, LargeCompile(flags).args)
         == Understood(LauncherOptions(flags), PREAMBLE + Effective(dir, files, ToolArguments(flags)) + Sources())
  {
    LargeCompileArgs(flags);
    PreamblePlain();
    SourcesPlain();
    PlainMeaning(dir, files, PREAMBLE);
    PlainMeaning(dir, files, Sources());
    LauncherConcat(PREAMBLE + flags, Sources());
    LauncherConcat(PREAMBLE, flags);
    assert [] + LauncherOptions(flags) + [] == LauncherOptions(flags);
    ToolConcat(PREAMBLE + flags, Sources());
    ToolConcat(PREAMBLE, flags);
    EffectiveConcat(dir, files, PREAMBLE + ToolArguments(flags), Sources());
    EffectiveConcat(dir, files, PREAMBLE, ToolArguments(flags));
  }

  lemma RootPlace(host: Place)
    ensures Resolve(host, "/proj") == ["proj"] && Findable(host, "/proj")
  {
    SplitWord("proj", '/');
    SplitConcat("", "proj", '/');
    assert "" + "/" + "proj" == "/proj" && Split("", '/') == [""];
    assert [""] + ["proj"] == ["", "proj"] && ["", "proj"][1..] == ["proj"];
    WalkNames([], ["proj"]);
    assert Walk([], ["", "proj"]) == Walk([], ["proj"]) == [] + ["proj"] == ["proj"];
  }

  // Spilled below `/proj`, it means its own list.
  lemma LargeSpilled(host: Place, files: map<Place, string>, jdk: Jdk, flags: seq<string>)
    requires forall flag <- flags :: !HasTerminator(flag)
    ensures var (r, after) := Spill(host, files, true, Javac, LargeCompile(flags));
      && Spillable(LargeCompile(flags)) && r.Ok?
      && Meaning(Javac, jdk, ["proj"], after, r.value.args) == Understood([], PREAMBLE + flags + Sources())
  {
    LargeCompileSpills(flags);
    LargeCompileArgs(flags);
    RootPlace(host);
    SpilledMeaning(host, files, Javac, jdk, LargeCompile(flags));
  }

  lemma Between(flags: seq<string>, others: seq<string>)
    ensures PREAMBLE + flags + Sources() == PREAMBLE + others + Sources() <==> flags == others
  {
    SameTail(PREAMBLE + flags, PREAMBLE + others, Sources());
    if PREAMBLE + flags == PREAMBLE + others {
      assert (PREAMBLE + flags)[|PREAMBLE|..] == flags && (PREAMBLE + others)[|PREAMBLE|..] == others;
    }
  }

  lemma ProjectReference(files: map<Place, string>, name: string)
    requires name != "" && '/' !in name && name != "." && name != ".." && name[0] != '@'
    ensures Expansion(["proj"], files, "@" + name)
         == if ["proj", name] in files then Tokenize(files[["proj", name]]) else ["@" + name]
  {
    var arg := "@" + name;
    SplitWord(name, '/');
    WalkNames(["proj"], [name]);
    assert arg[1..] == name && |arg| > 1 && ["proj"] + [name] == ["proj", name];
  }

  lemma OneFlag(flag: string)
    ensures ToolArguments([flag]) == if LauncherOption(flag) then [] else [flag]
    ensures LauncherOptions([flag]) == if LauncherOption(flag) then [flag] else []
  {
    assert [flag][1..] == [];
  }

  lemma ReferenceFlag(host: Place, files: map<Place, string>, jdk: Jdk, flag: string, options: seq<string>)
    requires !HasTerminator(flag) && flag != "" && flag[0] == '@' && Expansion(["proj"], files, flag) == options
    ensures var (r, after) := Spill(host, files, true, Javac, LargeCompile([flag]));
      var spelled := Meaning(Javac, jdk, ["proj"], files, LargeCompile([flag]).args);
      && Spillable(LargeCompile([flag])) && r.Ok?
      && spelled == Understood([], PREAMBLE + options + Sources())
      && (Meaning(Javac, jdk, ["proj"], after, r.value.args) == spelled <==> options == [flag])
  {
    LargeSpilled(host, files, jdk, [flag]);
    LargeMeaning(jdk, ["proj"], files, [flag]);
    OneFlag(flag);
    EffectiveOne(["proj"], files, flag);
    Between([flag], options);
  }

  // Spelled out on the command line, its flags are read from the file; spilled, the reference is one
  // more argument. So the compile changes unless the file lists nothing but that reference.
  lemma FlagsFileLost(host: Place, files: map<Place, string>, jdk: Jdk)
    requires ["proj", "opts"] in files
    ensures var (r, after) := Spill(host, files, true, Javac, LargeCompile(["@opts"]));
      var options := Tokenize(files[["proj", "opts"]]);
      var spelled := Meaning(Javac, jdk, ["proj"], files, LargeCompile(["@opts"]).args);
      && Spillable(LargeCompile(["@opts"])) && r.Ok?
      && spelled == Understood([], PREAMBLE + options + Sources())
      && (Meaning(Javac, jdk, ["proj"], after, r.value.args) == spelled <==> options == ["@opts"])
  {
    ProjectReference(files, "opts");
    assert "@" + "opts" == "@opts";
    ReferenceFlag(host, files, jdk, "@opts", Tokenize(files[["proj", "opts"]]));
  }

  lemma LauncherFlag(host: Place, files: map<Place, string>, jdk: Jdk, flag: string)
    requires !HasTerminator(flag) && LauncherOption(flag)
    ensures var (r, after) := Spill(host, files, true, Javac, LargeCompile([flag]));
      && Spillable(LargeCompile([flag])) && r.Ok?
      && Meaning(Javac, jdk, ["proj"], files, LargeCompile([flag]).args) == Understood([flag], PREAMBLE + Sources())
      && Meaning(Javac, jdk, ["proj"], after, r.value.args) == Understood([], PREAMBLE + [flag] + Sources())
  {
    LargeSpilled(host, files, jdk, [flag]);
    LargeMeaning(jdk, ["proj"], files, [flag]);
    OneFlag(flag);
    NothingBetween(PREAMBLE, Sources());
  }

  lemma NothingBetween<T>(a: seq<T>, b: seq<T>)
    ensures a + [] + b == a + b
  {
  }

  // A flag for the Java machine `javac` runs on is taken from the command line by the launcher;
  // spilled, it reaches the compiler, which knows no such option.
  lemma LauncherOptionLost(host: Place, files: map<Place, string>, jdk: Jdk)
    ensures var (r, after) := Spill(host, files, true, Javac, LargeCompile(["-J-Xmx4g"]));
      && Spillable(LargeCompile(["-J-Xmx4g"])) && r.Ok?
      && Meaning(Javac, jdk, ["proj"], files, LargeCompile(["-J-Xmx4g"]).args)
           == Understood(["-J-Xmx4g"], PREAMBLE + Sources())
      && Meaning(Javac, jdk, ["proj"], after, r.value.args)
           == Understood([], PREAMBLE + ["-J-Xmx4g"] + Sources())
  {
    LauncherFlag(host, files, jdk, "-J-Xmx4g");
  }

  lemma TwoReferences(dir: Place, files: map<Place, string>, a: string, b: string)
    requires Expansion(dir, files, a) == [] && Expansion(dir, files, b) == [a, b] && a != b
    ensures Active(dir, files, a) && Active(dir, files, b)
    ensures ListsOwnReference(dir, files, [a, b]) && Effective(dir, files, [a, b]) == [a, b]
  {
    assert [a, b] == [a] + [b] && a in [a, b] && b in [a, b];
    EffectiveConcat(dir, files, [a], [b]);
    EffectiveOne(dir, files, a);
    EffectiveOne(dir, files, b);
    assert a in Expansion(dir, files, b);
  }

  lemma KeptFlags(host: Place, files: map<Place, string>, jdk: Jdk, flags: seq<string>)
    requires forall flag <- flags :: !LauncherOption(flag) && !HasTerminator(flag)
    requires Effective(["proj"], files, flags) == flags
    ensures var (r, after) := Spill(host, files, true, Javac, LargeCompile(flags));
      && Spillable(LargeCompile(flags)) && r.Ok?
      && Meaning(Javac, jdk, ["proj"], after, r.value.args)
           == Meaning(Javac, jdk, ["proj"], files, LargeCompile(flags).args)
  {
    LargeSpilled(host, files, jdk, flags);
    LargeMeaning(jdk, ["proj"], files, flags);
    NoLauncherOptions(flags);
  }

  // Two files, one empty and one listing both references: both flags are replaced, and the compile is
  // as it was. This is what `ListsOwnReference` stands for.
  lemma OwnReferencesKept(host: Place, files: map<Place, string>, jdk: Jdk)
    requires ["proj", "a"] in files && Tokenize(files[["proj", "a"]]) == []
    requires ["proj", "b"] in files && Tokenize(files[["proj", "b"]]) == ["@a", "@b"]
    ensures var (r, after) := Spill(host, files, true, Javac, LargeCompile(["@a", "@b"]));
      && Spillable(LargeCompile(["@a", "@b"])) && r.Ok?
      && Active(["proj"], files, "@a") && Active(["proj"], files, "@b")
      && ListsOwnReference(["proj"], files, ["@a", "@b"])
      && Meaning(Javac, jdk, ["proj"], after, r.value.args)
           == Meaning(Javac, jdk, ["proj"], files, LargeCompile(["@a", "@b"]).args)
  {
    ProjectReference(files, "a");
    ProjectReference(files, "b");
    assert "@" + "a" == "@a" && "@" + "b" == "@b";
    TwoReferences(["proj"], files, "@a", "@b");
    KeptFlags(host, files, jdk, ["@a", "@b"]);
  }
}
