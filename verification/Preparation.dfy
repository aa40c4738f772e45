// Preparing a build script: restore the last result when its record still holds, otherwise evaluate.
module Preparation {
  import opened Orders
  import opened Text
  import opened Paths
  import opened Identity
  import opened Cache
  import opened Model
  import opened Fingerprint
  import opened StateCodec

  // ---- Errors and results ----

  datatype Error =
    | InvalidLimit
    | EnvironmentLimit
    | InvalidScriptPath(path: string)
    | ScriptMissing(script: FileKey)
    | ScriptTooLarge(script: FileKey, size: nat, limit: nat)
    | ScriptNotText(script: FileKey)
    | Engine(error: EngineError)
    | ReportedErrors(diagnostics: seq<Diagnostic>)

  datatype Record = Record(key: CacheKey, bytes: Bytes)

  datatype RecordError = NoInputs | StateTooLarge(size: nat, limit: nat)

  datatype Prepared = Prepared(
    scope: Scope,
    script: FileKey,
    pending: Pending,
    recovered: Tree,
    cacheState: Result<Option<Record>, RecordError>)

  // ---- Limits on a decoded state ----

  const OUTPUT_ROOT_TEXT := "target/jals/build/script/out"

  function CountSlashes(s: string): nat {
    if s == "" then 0 else (if s[0] == '/' then 1 else 0) + CountSlashes(s[1..])
  }

  function PathDepth(path: string): nat {
    if path == "" then 0 else CountSlashes(path) + 1
  }

  // Output paths are measured below the output root, all others whole.
  function Measured(key: FileKey): string {
    var rendered := Render(key);
    var root := OUTPUT_ROOT_TEXT + "/";
    if root <= rendered then rendered[|root|..] else rendered
  }

  predicate PathFits(key: FileKey, limits: Limits) {
    Length(Measured(key)) <= limits.maxPathBytes && PathDepth(Measured(key)) <= limits.maxPathDepth
  }

  predicate KeysFit(keys: set<FileKey>, limits: Limits) {
    |keys| <= limits.maxArraySize && forall key <- keys :: PathFits(key, limits)
  }

  predicate StringsFit(values: seq<string>, limits: Limits) {
    |values| <= limits.maxArraySize && forall value <- values :: Length(value) <= limits.maxStringSize
  }

  predicate MapFits(values: map<string, string>, limits: Limits) {
    && |values| <= limits.maxMapSize
    && forall key <- values ::
         Length(key) <= limits.maxStringSize && Length(values[key]) <= limits.maxStringSize
  }

  function StringBytes(values: seq<string>): nat {
    if values == [] then 0 else Length(values[0]) + StringBytes(values[1..])
  }

  function EntryBytes(values: map<string, string>, names: seq<string>): nat
    requires forall name <- names :: name in values
  {
    if names == [] then 0
    else Length(names[0]) + Length(values[names[0]]) + EntryBytes(values, names[1..])
  }

  function MapBytes(values: map<string, string>): nat {
    EntryBytes(values, SortedStrings(values.Keys))
  }

  function MessageBytes(diagnostics: seq<Diagnostic>): nat {
    if diagnostics == [] then 0 else Length(diagnostics[0].message) + MessageBytes(diagnostics[1..])
  }

  // The program sums with overflow checks; a sum past `usize` is past every limit.
  function DirectiveBytes(d: Directives): nat {
    StringBytes(d.javacArgs) + StringBytes(d.jvmArgs)
    + MapBytes(d.compileEnv) + MapBytes(d.runEnv) + MapBytes(d.metadata)
    + MessageBytes(d.diagnostics)
  }

  predicate DirectivesFit(p: Platform, d: Directives, limits: Limits) {
    && KeysFit(d.generatedSources, limits)
    && KeysFit(d.additionalClasspath, limits)
    && KeysFit(d.additionalModulePath, limits)
    && KeysFit(d.rerunFiles, limits)
    && |d.rerunEnv| <= limits.maxArraySize
    && (forall name <- d.rerunEnv :: Length(name) <= limits.maxStringSize)
    && |d.diagnostics| <= limits.maxArraySize
    && (forall item <- d.diagnostics :: Length(item.message) <= limits.maxStringSize)
    && StringsFit(d.javacArgs, limits) && StringsFit(d.jvmArgs, limits)
    && MapFits(d.compileEnv, limits) && MapFits(d.runEnv, limits) && MapFits(d.metadata, limits)
    && DirectiveBytes(d) <= limits.maxHostDirectiveBytes
    && p.validPlan(d.taskPlan, limits.TaskPlanLimits())
  }

  predicate StateWithinLimits(p: Platform, state: Decoded, limits: Limits) {
    && |state.outputs| <= limits.maxOutputFiles
    && (forall i :: 0 <= i < |state.outputs| ==> PathFits(state.outputs[i].0, limits))
    && DirectivesFit(p, state.directives, limits)
  }

  // ---- What the limits say ----

  // A path below the output root is as long and as deep as what is below it; any other is measured
  // whole.
  ghost predicate PathWithin(key: FileKey, limits: Limits) {
    if ["target", "jals", "build", "script", "out"] < key
    then Length(Render(key[5..])) <= limits.maxPathBytes && |key| - 5 <= limits.maxPathDepth
    else Length(Render(key)) <= limits.maxPathBytes && |key| <= limits.maxPathDepth
  }

  ghost predicate KeysWithin(keys: set<FileKey>, limits: Limits) {
    |keys| <= limits.maxArraySize && forall key <- keys :: PathWithin(key, limits)
  }

  // The text of everything a script registers, one after the other.
  function Flattened(values: seq<string>): string {
    if values == [] then "" else values[0] + Flattened(values[1..])
  }

  function EntriesText(values: map<string, string>, names: seq<string>): string
    requires forall name <- names :: name in values
  {
    if names == [] then "" else names[0] + values[names[0]] + EntriesText(values, names[1..])
  }

  function Messages(diagnostics: seq<Diagnostic>): seq<string> {
    seq(|diagnostics|, i requires 0 <= i < |diagnostics| => diagnostics[i].message)
  }

  function MapText(values: map<string, string>): string {
    EntriesText(values, SortedStrings(values.Keys))
  }

  function DirectiveText(d: Directives): string {
    Flattened(d.javacArgs) + Flattened(d.jvmArgs) + MapText(d.compileEnv) + MapText(d.runEnv) + MapText(d.metadata)
    + Flattened(Messages(d.diagnostics))
  }

  ghost predicate TextsWithin(d: Directives, limits: Limits) {
    && |d.javacArgs| <= limits.maxArraySize && |d.jvmArgs| <= limits.maxArraySize
    && |d.rerunEnv| <= limits.maxArraySize && |d.diagnostics| <= limits.maxArraySize
    && |d.compileEnv| <= limits.maxMapSize && |d.runEnv| <= limits.maxMapSize && |d.metadata| <= limits.maxMapSize
    && (forall text :: text in d.javacArgs || text in d.jvmArgs || text in d.rerunEnv ==>
          Length(text) <= limits.maxStringSize)
    && (forall item <- d.diagnostics :: Length(item.message) <= limits.maxStringSize)
    && (forall name :: name in d.compileEnv ==>
          Length(name) <= limits.maxStringSize && Length(d.compileEnv[name]) <= limits.maxStringSize)
    && (forall name :: name in d.runEnv ==>
          Length(name) <= limits.maxStringSize && Length(d.runEnv[name]) <= limits.maxStringSize)
    && (forall name :: name in d.metadata ==>
          Length(name) <= limits.maxStringSize && Length(d.metadata[name]) <= limits.maxStringSize)
  }

  ghost predicate WithinLimits(p: Platform, state: Decoded, limits: Limits) {
    && |state.outputs| <= limits.maxOutputFiles
    && (forall i :: 0 <= i < |state.outputs| ==> PathWithin(state.outputs[i].0, limits))
    && DirectivesWithin(p, state.directives, limits)
  }

  ghost predicate DirectivesWithin(p: Platform, d: Directives, limits: Limits) {
    && KeysWithin(d.generatedSources, limits) && KeysWithin(d.additionalClasspath, limits)
    && KeysWithin(d.additionalModulePath, limits) && KeysWithin(d.rerunFiles, limits)
    && TextsWithin(d, limits)
    && Length(DirectiveText(d)) <= limits.maxHostDirectiveBytes
    && p.validPlan(d.taskPlan,
                   TaskLimits(limits.maxTasks, limits.maxTaskEdges, limits.maxTaskLiteralBytes, limits.maxTaskTerminals,
                              limits.maxPublicationRoots, limits.maxFetchBytes, limits.maxPathBytes,
                              limits.maxPathDepth))
  }

  lemma {:induction false} SplitDepth(path: string)
    ensures |Split(path, '/')| == CountSlashes(path) + 1
    decreases |path|
  {
    if path != "" {
      SplitDepth(path[1..]);
    }
  }

  lemma RenderDepth(key: FileKey)
    ensures Render(key) != "" && PathDepth(Render(key)) == |key|
  {
    RenderParses(key);
    SplitDepth(Render(key));
  }

  lemma RenderBelow(key: FileKey, below: FileKey)
    requires key == OUTPUT_ROOT + below
    ensures Render(key) == OUTPUT_ROOT_TEXT + "/" + Render(below)
  {
    RenderConcat(OUTPUT_ROOT, below);
    OutputRootText();
  }

  lemma OutputRootText()
    ensures Render(OUTPUT_ROOT) == OUTPUT_ROOT_TEXT
  {
    assert OUTPUT_ROOT[1..] == ["jals", "build", "script", "out"];
    assert OUTPUT_ROOT[1..][1..] == ["build", "script", "out"];
    assert OUTPUT_ROOT[1..][1..][1..] == ["script", "out"];
    assert OUTPUT_ROOT[1..][1..][1..][1..] == ["out"];
  }

  lemma {:induction false} RenderConcat(a: seq<string>, b: seq<string>)
    requires a != [] && b != []
    ensures Render(a + b) == Render(a) + "/" + Render(b)
    decreases |a|
  {
    if |a| == 1 {
      assert (a + b)[1..] == b;
    } else {
      RenderConcat(a[1..], b);
      assert (a + b)[1..] == a[1..] + b;
    }
  }

  // What is below the output root is what its path starts with.
  lemma BelowByText(key: FileKey)
    ensures OUTPUT_ROOT < key <==> OUTPUT_ROOT_TEXT + "/" <= Render(key)
    ensures OUTPUT_ROOT < key ==> ValidPath(key[5..]) && Measured(key) == Render(key[5..])
  {
    var rendered, root := Render(key), OUTPUT_ROOT_TEXT + "/";
    if OUTPUT_ROOT < key {
      assert forall name <- key[5..] :: name in key;
      assert key == OUTPUT_ROOT + key[5..];
      RenderBelow(key, key[5..]);
      assert rendered[|root|..] == Render(key[5..]);
    }
    if root <= rendered {
      var rest := rendered[|root|..];
      assert rendered == OUTPUT_ROOT_TEXT + "/" + rest;
      SplitRoot(rest);
      NamesHaveNoSlash(key);
      SplitJoin(key, '/');
    }
  }

  lemma SplitRoot(rest: string)
    ensures Split(OUTPUT_ROOT_TEXT + "/" + rest, '/') == OUTPUT_ROOT + Split(rest, '/')
  {
    OutputRootText();
    SplitJoin(OUTPUT_ROOT, '/');
    SplitConcat(OUTPUT_ROOT_TEXT, rest, '/');
  }

  lemma PathFitsExactly(key: FileKey, limits: Limits)
    ensures PathFits(key, limits) <==> PathWithin(key, limits)
  {
    BelowByText(key);
    if OUTPUT_ROOT < key {
      RenderDepth(key[5..]);
    } else {
      RenderDepth(key);
    }
  }

  lemma KeysFitExactly(keys: set<FileKey>, limits: Limits)
    ensures KeysFit(keys, limits) <==> KeysWithin(keys, limits)
  {
    forall key <- keys ensures PathFits(key, limits) == PathWithin(key, limits) {
      PathFitsExactly(key, limits);
    }
  }

  lemma {:induction false} FlattenedLength(values: seq<string>)
    ensures Length(Flattened(values)) == StringBytes(values)
  {
    if values != [] {
      FlattenedLength(values[1..]);
      Utf8Concat(values[0], Flattened(values[1..]));
    }
  }

  lemma {:induction false} EntriesLength(values: map<string, string>, names: seq<string>)
    requires forall name <- names :: name in values
    ensures Length(EntriesText(values, names)) == EntryBytes(values, names)
    decreases |names|
  {
    if names != [] {
      var rest := EntriesText(values, names[1..]);
      EntriesLength(values, names[1..]);
      Utf8Concat(names[0] + values[names[0]], rest);
      Utf8Concat(names[0], values[names[0]]);
    }
  }

  lemma {:induction false} MessagesLength(diagnostics: seq<Diagnostic>)
    ensures StringBytes(Messages(diagnostics)) == MessageBytes(diagnostics)
    decreases |diagnostics|
  {
    if diagnostics != [] {
      MessagesLength(diagnostics[1..]);
      assert Messages(diagnostics)[1..] == Messages(diagnostics[1..]);
    }
  }

  lemma SixLengths(a: string, b: string, c: string, d: string, e: string, f: string)
    ensures Length(a + b + c + d + e + f) == Length(a) + Length(b) + Length(c) + Length(d) + Length(e) + Length(f)
  {
    Utf8Concat(a + b + c + d + e, f);
    Utf8Concat(a + b + c + d, e);
    Utf8Concat(a + b + c, d);
    Utf8Concat(a + b, c);
    Utf8Concat(a, b);
  }

  // The directives' size is that of all their text together.
  lemma DirectiveLength(d: Directives)
    ensures Length(DirectiveText(d)) == DirectiveBytes(d)
  {
    FlattenedLength(d.javacArgs);
    FlattenedLength(d.jvmArgs);
    EntriesLength(d.compileEnv, SortedStrings(d.compileEnv.Keys));
    EntriesLength(d.runEnv, SortedStrings(d.runEnv.Keys));
    EntriesLength(d.metadata, SortedStrings(d.metadata.Keys));
    FlattenedLength(Messages(d.diagnostics));
    MessagesLength(d.diagnostics);
    SixLengths(Flattened(d.javacArgs), Flattened(d.jvmArgs), MapText(d.compileEnv), MapText(d.runEnv),
               MapText(d.metadata), Flattened(Messages(d.diagnostics)));
  }

  lemma PathsExactly(outputs: seq<(FileKey, Digest)>, limits: Limits)
    ensures (forall i :: 0 <= i < |outputs| ==> PathFits(outputs[i].0, limits)) <==>
      forall i :: 0 <= i < |outputs| ==> PathWithin(outputs[i].0, limits)
  {
    forall i | 0 <= i < |outputs| ensures PathFits(outputs[i].0, limits) == PathWithin(outputs[i].0, limits) {
      PathFitsExactly(outputs[i].0, limits);
    }
  }

  lemma DirectivesExactly(p: Platform, d: Directives, limits: Limits)
    ensures DirectivesFit(p, d, limits) <==> DirectivesWithin(p, d, limits)
  {
    KeysFitExactly(d.generatedSources, limits);
    KeysFitExactly(d.additionalClasspath, limits);
    KeysFitExactly(d.additionalModulePath, limits);
    KeysFitExactly(d.rerunFiles, limits);
    DirectiveLength(d);
    TextsExactly(d, limits);
  }

  // A state passes the limits exactly when each of its paths, texts and counts does, and all its text
  // together.
  lemma LimitsExactly(p: Platform, state: Decoded, limits: Limits)
    ensures StateWithinLimits(p, state, limits) <==> WithinLimits(p, state, limits)
  {
    PathsExactly(state.outputs, limits);
    DirectivesExactly(p, state.directives, limits);
  }

  lemma TextsExactly(d: Directives, limits: Limits)
    ensures TextsWithin(d, limits) <==>
      && |d.rerunEnv| <= limits.maxArraySize
      && (forall name <- d.rerunEnv :: Length(name) <= limits.maxStringSize)
      && |d.diagnostics| <= limits.maxArraySize
      && (forall item <- d.diagnostics :: Length(item.message) <= limits.maxStringSize)
      && StringsFit(d.javacArgs, limits) && StringsFit(d.jvmArgs, limits)
      && MapFits(d.compileEnv, limits) && MapFits(d.runEnv, limits) && MapFits(d.metadata, limits)
  {
  }

  // ---- Recovering generated files ----

  datatype Recovery = Recovery(generated: Tree, total: nat, complete: bool)

  function OutputKeyFor(scope: Scope, script: FileKey, output: (FileKey, Digest)): CacheKey {
    CacheKey(Output, OutputProvenance(scope, script, output.0), output.1)
  }

  // One recorded output's bytes, when the cache has them and can be read.
  function Found(cache: Contents, scope: Scope, script: FileKey, limits: Limits, output: (FileKey, Digest))
    : Option<Bytes>
  {
    match LookupBounded(cache, OutputKeyFor(scope, script, output), limits.maxOutputFileSize)
    case Ok(bytes) => bytes
    case Err(_) => None
  }

  function RecoverOne(cache: Contents, scope: Scope, script: FileKey, limits: Limits, r: Recovery,
                      output: (FileKey, Digest)): Recovery
  {
    match Found(cache, scope, script, limits, output)
    case Some(bytes) =>
      if |bytes| <= limits.maxOutputFileSize && r.total + |bytes| <= limits.maxTotalOutputSize
      then Recovery(r.generated[output.0 := bytes], r.total + |bytes|, r.complete)
      else r.(complete := false)
    case None => r.(complete := false)
  }

  // One pass over the recorded outputs, in order.
  function Recover(cache: Contents, scope: Scope, script: FileKey, limits: Limits, complete: bool,
                   outputs: seq<(FileKey, Digest)>): Recovery
    decreases |outputs|
  {
    if outputs == [] then Recovery(map[], 0, complete)
    else
      var last := |outputs| - 1;
      RecoverOne(cache, scope, script, limits,
                 Recover(cache, scope, script, limits, complete, outputs[..last]), outputs[last])
  }

  datatype Cached = Cached(state: Decoded, generated: Tree, fingerprintMatches: bool, outputsComplete: bool)

  function ReadState(p: Platform, cache: Contents, scope: Scope, script: FileKey, limits: Limits): Option<Decoded> {
    match IndexedKey(cache, State, StateProvenance(scope, script))
    case None => None
    case Some(key) =>
      match LookupBounded(cache, key, limits.maxCacheStateSize)
      case Ok(Some(bytes)) => DecodeState(p, bytes, scope, script)
      case _ => None
  }

  predicate FingerprintMatches(p: Platform, at: Setting, scope: Scope, script: FileKey, state: Decoded) {
    var inputs := Inputs(at, scope, script, DeclaredBy(state.directives));
    inputs.Some? && Of(p.encodeInputs(inputs.value)) == state.fingerprint
  }

  function LoadCached(p: Platform, cache: Contents, at: Setting, scope: Scope, script: FileKey): Option<Cached> {
    match ReadState(p, cache, scope, script, at.limits)
    case None => None
    case Some(state) =>
      var r := Recover(cache, scope, script, at.limits, StateWithinLimits(p, state, at.limits), state.outputs);
      Some(Cached(state, r.generated, FingerprintMatches(p, at, scope, script, state),
                  r.complete && |r.generated| == |state.outputs|))
  }

  // ---- Preparing ----

  predicate ValidEnvironmentInput(environment: Environment, limits: Limits) {
    && |environment.values| <= limits.maxMapSize
    && forall name <- environment.values ::
         && ValidEnvironmentName(name)
         && Length(name) <= limits.maxStringSize
         && Length(environment.values[name]) <= limits.maxStringSize
  }

  // Every check made before the cache is consulted.
  function CheckScript(p: Platform, at: Setting, path: string): (r: Result<FileKey, Error>)
    ensures r.Ok? ==> r.value in at.files
  {
    if !at.limits.AllPositive() then Err(InvalidLimit)
    else if !ValidEnvironmentInput(at.environment, at.limits) then Err(EnvironmentLimit)
    else if Length(path) > at.limits.maxPathBytes || PathDepth(path) > at.limits.maxPathDepth
    then Err(InvalidScriptPath(path))
    else
      var key := ParseFile(path);
      if key.None? || ARTIFACT_ROOT <= key.value then Err(InvalidScriptPath(path))
      else if key.value !in at.files then Err(ScriptMissing(key.value))
      else if |at.files[key.value]| > at.limits.maxScriptSize
      then Err(ScriptTooLarge(key.value, |at.files[key.value]|, at.limits.maxScriptSize))
      else if !p.isText(at.files[key.value]) then Err(ScriptNotText(key.value))
      else Ok(key.value)
  }

  // Every limit allows something.
  ghost predicate LimitsUsable(l: Limits) {
    && 0 < l.maxScriptSize && 0 < l.maxOperations && 0 < l.maxStringSize && 0 < l.maxArraySize && 0 < l.maxMapSize
    && 0 < l.maxPathBytes && 0 < l.maxPathDepth && 0 < l.maxHostDirectiveBytes && 0 < l.maxOutputFiles
    && 0 < l.maxOutputFileSize && 0 < l.maxTotalOutputSize && 0 < l.maxCacheStateSize && 0 < l.maxTasks
    && 0 < l.maxTaskEdges && 0 < l.maxTaskLiteralBytes && 0 < l.maxTaskTerminals && 0 < l.maxPublicationRoots
    && 0 < l.maxFetchBytes
  }

  ghost predicate EnvironmentUsable(values: map<string, string>, limits: Limits) {
    && |values| <= limits.maxMapSize
    && forall name :: name in values ==>
         && name != "" && '=' !in name && '\0' !in name
         && Length(name) <= limits.maxStringSize && Length(values[name]) <= limits.maxStringSize
  }

  // How a script path the manifest may give is written: outside the artifact root, within the limits.
  ghost predicate Configures(path: string, limits: Limits, script: FileKey) {
    && path == Render(script)
    && Length(path) <= limits.maxPathBytes && |script| <= limits.maxPathDepth
    && !(["target", "jals", "build"] <= script)
  }

  // A script that may run: a text file of the project outside the artifact root, everything about it
  // within the limits.
  ghost predicate Runnable(p: Platform, at: Setting, script: FileKey) {
    && LimitsUsable(at.limits) && EnvironmentUsable(at.environment.values, at.limits)
    && Configures(Render(script), at.limits, script)
    && script in at.files && |at.files[script]| <= at.limits.maxScriptSize && p.isText(at.files[script])
  }

  // Why a script may not run: the first thing wrong with it.
  ghost predicate MayNotRun(p: Platform, at: Setting, path: string, error: Error) {
    match error
    case InvalidLimit => !LimitsUsable(at.limits)
    case EnvironmentLimit => LimitsUsable(at.limits) && !EnvironmentUsable(at.environment.values, at.limits)
    case InvalidScriptPath(refused) =>
      && refused == path && Ready(at)
      && forall script: FileKey :: !Configures(path, at.limits, script)
    case ScriptMissing(script) => Ready(at) && Configures(path, at.limits, script) && script !in at.files
    case ScriptTooLarge(script, size, limit) =>
      && Ready(at) && Configures(path, at.limits, script) && script in at.files
      && size == |at.files[script]| && limit == at.limits.maxScriptSize < size
    case ScriptNotText(script) =>
      && Ready(at) && Configures(path, at.limits, script) && script in at.files
      && |at.files[script]| <= at.limits.maxScriptSize && !p.isText(at.files[script])
    case _ => false
  }

  ghost predicate Ready(at: Setting) {
    LimitsUsable(at.limits) && EnvironmentUsable(at.environment.values, at.limits)
  }

  lemma ConfiguresExactly(path: string, limits: Limits, script: FileKey)
    ensures Configures(path, limits, script) <==>
      && Length(path) <= limits.maxPathBytes && PathDepth(path) <= limits.maxPathDepth
      && ParseFile(path) == Some(script) && !(ARTIFACT_ROOT <= script)
  {
    RenderParses(script);
    RenderDepth(script);
    ParseRenders(path);
  }

  // The configured text is accepted exactly when it is how a runnable script is written.
  lemma CheckScriptExactly(p: Platform, at: Setting, path: string, script: FileKey)
    ensures CheckScript(p, at, path) == Ok(script) <==> path == Render(script) && Runnable(p, at, script)
  {
    ConfiguresExactly(path, at.limits, script);
  }

  lemma RefusedExactly(p: Platform, at: Setting, path: string, error: Error)
    ensures CheckScript(p, at, path) == Err(error) <==> MayNotRun(p, at, path, error)
  {
    forall script: FileKey
      ensures Configures(path, at.limits, script) <==>
        && Length(path) <= at.limits.maxPathBytes && PathDepth(path) <= at.limits.maxPathDepth
        && ParseFile(path) == Some(script) && !(ARTIFACT_ROOT <= script)
    {
      ConfiguresExactly(path, at.limits, script);
    }
  }

  function CacheState(p: Platform, at: Setting, scope: Scope, script: FileKey, pending: Pending):
    Result<Option<Record>, RecordError>
  {
    if script !in at.files then Err(NoInputs)
    else
      var bytes := StateBytes(p, at, scope, script, pending);
      if |bytes| > at.limits.maxCacheStateSize then Err(StateTooLarge(|bytes|, at.limits.maxCacheStateSize))
      else Ok(Some(Record(CacheKey(State, StateProvenance(scope, script), Of(bytes)), bytes)))
  }

  // Run the engine; a reported error is a failure however the run ended.
  function Direct(p: Platform, at: Setting, script: FileKey): Result<Pending, Error> {
    match p.evaluate(at.files, script, at.environment, at.limits)
    case Err(error) => Err(Engine(error))
    case Ok(pending) =>
      if ReportsError(pending) then Err(ReportedErrors(pending.directives.diagnostics)) else Ok(pending)
  }

  function Evaluated(p: Platform, at: Setting, scope: Scope, script: FileKey, recovered: Tree):
    Result<Prepared, Error>
  {
    match Direct(p, at, script)
    case Err(error) => Err(error)
    case Ok(pending) => Ok(Prepared(scope, script, pending, recovered, CacheState(p, at, scope, script, pending)))
  }

  function PrepareScript(p: Platform, cache: Contents, at: Setting, scope: Scope, script: FileKey):
    Result<Prepared, Error>
  {
    match LoadCached(p, cache, at, scope, script)
    case None => Evaluated(p, at, scope, script, map[])
    case Some(cached) =>
      if cached.fingerprintMatches && cached.outputsComplete
      then Ok(Prepared(scope, script, Pending(cached.generated, cached.state.directives), map[], Ok(None)))
      else Evaluated(p, at, scope, script, cached.generated)
  }

  function SettingOf(files: Tree, manifest: Manifest, environment: Environment, limits: Limits): Setting {
    Setting(files, manifest.classesDir, environment, limits)
  }

  function Prepare(p: Platform, cache: Contents, files: Tree, scope: Scope, manifest: Manifest,
                   environment: Environment, limits: Limits): Result<Option<Prepared>, Error>
  {
    if manifest.script.None? then Ok(None)
    else
      var at := SettingOf(files, manifest, environment, limits);
      match CheckScript(p, at, manifest.script.value)
      case Err(error) => Err(error)
      case Ok(script) =>
        match PrepareScript(p, cache, at, scope, script)
        case Err(error) => Err(error)
        case Ok(prepared) => Ok(Some(prepared))
  }

  // ---- Bounds on recovery ----

  function TotalSize(files: Tree): nat
    decreases |files|
  {
    if files == map[] then 0
    else
      var key := LeastKey(files.Keys);
      |files[key]| + TotalSize(files - {key})
  }

  lemma {:induction false} TotalSizeAdd(files: Tree, key: FileKey, bytes: Bytes)
    requires key !in files
    ensures TotalSize(files[key := bytes]) == TotalSize(files) + |bytes|
    decreases |files|
  {
    var more := files[key := bytes];
    assert key in more;
    var least := LeastKey(more.Keys);
    if least == key {
      assert more - {key} == files;
    } else {
      KeyLessIsStrict();
      LeastUnique<FileKey>(KeyLess, files.Keys);
      assert IsLeast<FileKey>(KeyLess, files.Keys, least);
      assert more - {least} == (files - {least})[key := bytes];
      TotalSizeAdd(files - {least}, key, bytes);
    }
  }

  ghost predicate DistinctKeys(outputs: seq<(FileKey, Digest)>) {
    forall i, j :: 0 <= i < j < |outputs| ==> outputs[i].0 != outputs[j].0
  }

  predicate RecordedAs(outputs: seq<(FileKey, Digest)>, key: FileKey, bytes: Bytes) {
    exists i | 0 <= i < |outputs| :: outputs[i] == (key, Of(bytes))
  }

  // What one pass maintains: the running total is the size of what was recovered, and stays within
  // the limit; each file is within its own; recovered bytes are the recorded ones; and a pass still
  // complete has recovered every output so far.
  ghost predicate RecoveryInvariant(r: Recovery, outputs: seq<(FileKey, Digest)>, limits: Limits, complete: bool) {
    && r.total == TotalSize(r.generated) <= limits.maxTotalOutputSize
    && (forall key <- r.generated :: |r.generated[key]| <= limits.maxOutputFileSize)
    && (forall key <- r.generated :: RecordedAs(outputs, key, r.generated[key]))
    && (r.complete ==> complete)
    && (r.complete ==> forall i :: 0 <= i < |outputs| ==> outputs[i].0 in r.generated)
  }

  lemma RecordedStill(before: Tree, outputs: seq<(FileKey, Digest)>, output: (FileKey, Digest), after: Tree)
    requires forall key <- before :: RecordedAs(outputs, key, before[key])
    requires after == before || (output.0 in after && Of(after[output.0]) == output.1
                                 && after == before[output.0 := after[output.0]])
    ensures forall key <- after :: RecordedAs(outputs + [output], key, after[key])
  {
    var all := outputs + [output];
    forall key | key in after
      ensures RecordedAs(all, key, after[key])
    {
      if after != before && key == output.0 {
        assert all[|outputs|] == (key, Of(after[key]));
      } else {
        var i :| 0 <= i < |outputs| && outputs[i] == (key, Of(before[key]));
        assert all[i] == (key, Of(after[key]));
      }
    }
  }

  lemma FreshKey(recovered: Tree, outputs: seq<(FileKey, Digest)>, output: (FileKey, Digest))
    requires forall key <- recovered :: RecordedAs(outputs, key, recovered[key])
    requires DistinctKeys(outputs + [output])
    ensures output.0 !in recovered
  {
    var all := outputs + [output];
    assert all[|outputs|] == output;
    forall i | 0 <= i < |outputs| ensures outputs[i].0 != output.0 {
      assert all[i] == outputs[i];
    }
  }

  lemma RecoverStep(cache: Contents, scope: Scope, script: FileKey, limits: Limits, complete: bool,
                    r: Recovery, outputs: seq<(FileKey, Digest)>, output: (FileKey, Digest))
    requires RecoveryInvariant(r, outputs, limits, complete)
    requires DistinctKeys(outputs + [output])
    ensures RecoveryInvariant(RecoverOne(cache, scope, script, limits, r, output), outputs + [output], limits, complete)
  {
    var next := RecoverOne(cache, scope, script, limits, r, output);
    FreshKey(r.generated, outputs, output);
    if next.generated != r.generated {
      TotalSizeAdd(r.generated, output.0, next.generated[output.0]);
    }
    RecordedStill(r.generated, outputs, output, next.generated);
  }

  lemma {:induction false} RecoverBounded(cache: Contents, scope: Scope, script: FileKey, limits: Limits,
                                          complete: bool, outputs: seq<(FileKey, Digest)>)
    requires DistinctKeys(outputs)
    ensures RecoveryInvariant(Recover(cache, scope, script, limits, complete, outputs), outputs, limits, complete)
    decreases |outputs|
  {
    if outputs != [] {
      var last := |outputs| - 1;
      RecoverBounded(cache, scope, script, limits, complete, outputs[..last]);
      assert outputs[..last] + [outputs[last]] == outputs;
      RecoverStep(cache, scope, script, limits, complete,
                  Recover(cache, scope, script, limits, complete, outputs[..last]), outputs[..last], outputs[last]);
    }
  }

  lemma DecodedKeysDistinct(p: Platform, bytes: Bytes, scope: Scope, script: FileKey)
    requires DecodeState(p, bytes, scope, script).Some?
    ensures DistinctKeys(DecodeState(p, bytes, scope, script).value.outputs)
  {
    AcceptedShape(p, bytes, scope, script);
    AscendingDistinct(DecodeState(p, bytes, scope, script).value.outputs);
  }

  lemma StateKeysDistinct(p: Platform, cache: Contents, scope: Scope, script: FileKey, limits: Limits)
    requires ReadState(p, cache, scope, script, limits).Some?
    ensures DistinctKeys(ReadState(p, cache, scope, script, limits).value.outputs)
  {
    var key := IndexedKey(cache, State, StateProvenance(scope, script)).value;
    var bytes := LookupBounded(cache, key, limits.maxCacheStateSize).value.value;
    DecodedKeysDistinct(p, bytes, scope, script);
  }

  lemma AscendingDistinct(outputs: seq<(FileKey, Digest)>)
    requires forall i :: 0 < i < |outputs| ==> Less(Render(outputs[i - 1].0), Render(outputs[i].0))
    ensures DistinctKeys(outputs)
  {
    var texts := seq(|outputs|, i requires 0 <= i < |outputs| => Render(outputs[i].0));
    LessIsStrict();
    assert Ascending(Less, texts);
    AscendingPairs(Less, texts);
    forall i, j | 0 <= i < j < |outputs| ensures outputs[i].0 != outputs[j].0 {
      assert texts[i] != texts[j];
    }
  }

  // What a load that found every output has: exactly the recorded keys and bytes, within the limits.
  lemma CompleteRecovery(p: Platform, cache: Contents, at: Setting, scope: Scope, script: FileKey)
    requires LoadCached(p, cache, at, scope, script).Some?
    ensures var cached := LoadCached(p, cache, at, scope, script).value;
      && TotalSize(cached.generated) <= at.limits.maxTotalOutputSize
      && (forall key <- cached.generated :: |cached.generated[key]| <= at.limits.maxOutputFileSize)
      && (forall key <- cached.generated :: RecordedAs(cached.state.outputs, key, cached.generated[key]))
      && (cached.outputsComplete ==>
            && WithinLimits(p, cached.state, at.limits)
            && forall i :: 0 <= i < |cached.state.outputs| ==> cached.state.outputs[i].0 in cached.generated)
  {
    var state := ReadState(p, cache, scope, script, at.limits).value;
    LimitsExactly(p, state, at.limits);
    StateKeysDistinct(p, cache, scope, script, at.limits);
    RecoverBounded(cache, scope, script, at.limits, StateWithinLimits(p, state, at.limits), state.outputs);
  }

  // ---- The loading loop ----

  lemma RecoverExtend(cache: Contents, scope: Scope, script: FileKey, limits: Limits, complete: bool,
                      outputs: seq<(FileKey, Digest)>, i: nat)
    requires i < |outputs|
    ensures Recover(cache, scope, script, limits, complete, outputs[..i + 1]) ==
      RecoverOne(cache, scope, script, limits, Recover(cache, scope, script, limits, complete, outputs[..i]),
                 outputs[i])
  {
    assert outputs[..i + 1][..i] == outputs[..i];
  }

  method RecoverOutput(cache: Contents, scope: Scope, script: FileKey, limits: Limits, output: (FileKey, Digest),
                       recovered: Tree, total: nat, complete: bool)
    returns (generated: Tree, totalOutputSize: nat, outputsComplete: bool)
    ensures Recovery(generated, totalOutputSize, outputsComplete)
         == RecoverOne(cache, scope, script, limits, Recovery(recovered, total, complete), output)
  {
    generated, totalOutputSize, outputsComplete := recovered, total, complete;
    var found := Found(cache, scope, script, limits, output);
    if found.None? || |found.value| > limits.maxOutputFileSize {
      outputsComplete := false;
    } else if totalOutputSize + |found.value| > limits.maxTotalOutputSize {
      outputsComplete := false;
    } else {
      totalOutputSize := totalOutputSize + |found.value|;
      generated := generated[output.0 := found.value];
    }
  }

  method RecoverOutputs(cache: Contents, scope: Scope, script: FileKey, limits: Limits, complete: bool,
                        outputs: seq<(FileKey, Digest)>)
    returns (generated: Tree, outputsComplete: bool)
    ensures generated == Recover(cache, scope, script, limits, complete, outputs).generated
    ensures outputsComplete == Recover(cache, scope, script, limits, complete, outputs).complete
  {
    generated, outputsComplete := map[], complete;
    var totalOutputSize: nat := 0;
    var i := 0;
    while i < |outputs|
      invariant i <= |outputs|
      invariant Recovery(generated, totalOutputSize, outputsComplete)
             == Recover(cache, scope, script, limits, complete, outputs[..i])
    {
      RecoverExtend(cache, scope, script, limits, complete, outputs, i);
      generated, totalOutputSize, outputsComplete :=
        RecoverOutput(cache, scope, script, limits, outputs[i], generated, totalOutputSize, outputsComplete);
      i := i + 1;
    }
    assert outputs[..i] == outputs;
  }

  // `evaluate_direct`, and what is to be persisted of it.
  method EvaluateScript(p: Platform, at: Setting, scope: Scope, script: FileKey, recovered: Tree)
    returns (r: Result<Prepared, Error>)
    ensures r == Evaluated(p, at, scope, script, recovered)
    ensures r.Ok? ==> r.value.scope == scope && r.value.script == script && !ReportsError(r.value.pending)
  {
    var evaluated := p.evaluate(at.files, script, at.environment, at.limits);
    if evaluated.Err? {
      return Err(Engine(evaluated.error));
    }
    var pending := evaluated.value;
    if ReportsError(pending) {
      return Err(ReportedErrors(pending.directives.diagnostics));
    }
    r := Ok(Prepared(scope, script, pending, recovered, CacheState(p, at, scope, script, pending)));
  }

  method LoadCachedBuildScript(p: Platform, artifacts: ArtifactCache, at: Setting, scope: Scope, script: FileKey)
    returns (r: Option<Cached>)
    ensures r == LoadCached(p, artifacts.Value(), at, scope, script)
  {
    var cache := artifacts.Value();
    var read := ReadState(p, cache, scope, script, at.limits);
    if read.None? {
      return None;
    }
    var state := read.value;
    StateKeysDistinct(p, cache, scope, script, at.limits);
    var generated, outputsComplete :=
      RecoverOutputs(cache, scope, script, at.limits, StateWithinLimits(p, state, at.limits), state.outputs);
    outputsComplete := outputsComplete && |generated| == |state.outputs|;
    r := Some(Cached(state, generated, FingerprintMatches(p, at, scope, script, state), outputsComplete));
  }

  // What a preparation that answers has answered for: the configured script, which may run, and a
  // result without an error, evaluated or restored.
  ghost predicate Answers(p: Platform, at: Setting, scope: Scope, manifest: Manifest, prepared: Prepared) {
    && prepared.scope == scope && manifest.script == Some(Render(prepared.script))
    && Runnable(p, at, prepared.script) && !ReportsError(prepared.pending)
  }

  lemma LoadedReportsNone(p: Platform, cache: Contents, at: Setting, scope: Scope, script: FileKey)
    ensures var loaded := LoadCached(p, cache, at, scope, script);
      loaded.Some? ==> AllWarnings(loaded.value.state.directives.diagnostics)
  {
    if LoadCached(p, cache, at, scope, script).Some? {
      AcceptedShape(p, cache.index[(State, StateProvenance(scope, script))].content, scope, script);
    }
  }

  method PrepareBuildScript(p: Platform, artifacts: ArtifactCache, files: Tree, scope: Scope, manifest: Manifest,
                            environment: Environment, limits: Limits)
    returns (r: Result<Option<Prepared>, Error>)
    ensures r == Prepare(p, artifacts.Value(), files, scope, manifest, environment, limits)
    ensures r.Ok? && r.value.Some? ==> Answers(p, SettingOf(files, manifest, environment, limits), scope, manifest,
                                               r.value.value)
  {
    if manifest.script.None? {
      return Ok(None);
    }
    var at := SettingOf(files, manifest, environment, limits);
    var checked := CheckScript(p, at, manifest.script.value);
    if checked.Err? {
      return Err(checked.error);
    }
    var script := checked.value;
    CheckScriptExactly(p, at, manifest.script.value, script);
    LoadedReportsNone(p, artifacts.Value(), at, scope, script);
    var recovered: Tree := map[];
    var loaded := LoadCachedBuildScript(p, artifacts, at, scope, script);
    if loaded.Some? {
      var cached := loaded.value;
      if cached.fingerprintMatches && cached.outputsComplete {
        var pending := Pending(cached.generated, cached.state.directives);
        return Ok(Some(Prepared(scope, script, pending, map[], Ok(None))));
      }
      recovered := cached.generated;
    }
    var prepared := EvaluateScript(p, at, scope, script, recovered);
    r := if prepared.Err? then Err(prepared.error) else Ok(Some(prepared.value));
  }
}
