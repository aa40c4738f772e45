// The persisted state record: what is written after an evaluation, and what is accepted back.
module StateCodec {
  import opened Orders
  import opened Text
  import opened Paths
  import opened Identity
  import opened Model
  import opened Fingerprint

  // ---- Writing ----

  function OutputEntries(generated: Tree, keys: seq<FileKey>): (r: seq<OutputArtifact>)
    requires forall key :: key in keys ==> key in generated
    ensures |r| == |keys|
    ensures forall i :: 0 <= i < |r| ==> r[i] == OutputArtifact(Render(keys[i]), Hex(Of(generated[keys[i]])))
  {
    seq(|keys|, i requires 0 <= i < |keys| => OutputArtifact(Render(keys[i]), Hex(Of(generated[keys[i]]))))
  }

  function RenderSet(keys: set<FileKey>): seq<string> {
    RenderAll(SortedKeys(keys))
  }

  function WireOf(scope: Scope, script: FileKey, pending: Pending, inputs: FingerprintInputs,
                  fingerprint: Digest): StateWire
  {
    var d := pending.directives;
    StateWire(
      STATE_VERSION, API_VERSION, ScopeText(scope), Render(script), Hex(fingerprint), inputs,
      OutputEntries(pending.generated, SortedKeys(pending.generated.Keys)),
      d.taskPlan,
      RenderSet(d.generatedSources), RenderSet(d.additionalClasspath), RenderSet(d.additionalModulePath),
      d.javacArgs, d.jvmArgs, d.compileEnv, d.runEnv,
      RenderSet(d.rerunFiles), SortedStrings(d.rerunEnv),
      d.diagnostics, d.metadata)
  }

  // ---- Reading ----

  datatype Decoded = Decoded(fingerprint: Digest, outputs: seq<(FileKey, Digest)>, directives: Directives)

  predicate IsDigest(text: HexText) {
    text.Hex?
  }

  predicate MaybeDigest(text: Option<HexText>) {
    text.Some? ==> IsDigest(text.value)
  }

  // `cache_scope_matches`: no text for the root, the scope's own digest for a dependency.
  predicate ScopeMatches(text: Option<HexText>, scope: Scope) {
    text == ScopeText(scope)
  }

  predicate ValidEnvironmentName(name: string) {
    name != "" && '=' !in name && '\0' !in name
  }

  function ParseFileSet(values: seq<string>): Option<set<FileKey>> {
    if Ascending(Less, values) && forall value <- values :: ParseFile(value).Some?
    then Some(set value <- values :: ParseFile(value).value)
    else None
  }

  predicate ValidInputs(inputs: FingerprintInputs, scope: Scope, script: FileKey, rerunFiles: seq<string>,
                        rerunEnv: seq<string>)
  {
    && inputs.stateVersion == STATE_VERSION && inputs.apiVersion == API_VERSION
    && ScopeMatches(inputs.cacheScope, scope)
    && inputs.scriptPath == Render(script)
    && IsDigest(inputs.scriptDigest) && MaybeDigest(inputs.manifestDigest)
    && Ascending(Less, inputs.features)
    && ValidFiles(inputs.files, inputs.filesMode, rerunFiles)
    && ValidEnvironment(inputs.environment, rerunEnv)
  }

  predicate ValidFiles(files: seq<FileFingerprint>, mode: FilesMode, rerunFiles: seq<string>) {
    && (forall i :: 0 < i < |files| ==> Less(files[i - 1].path, files[i].path))
    && (forall i :: 0 <= i < |files| ==> ValidFileEntry(files[i], mode, rerunFiles))
    && (mode.AllProjectFiles? ==> rerunFiles == [])
    && (mode.Declared? ==> rerunFiles != [] && FilePaths(files) == rerunFiles)
  }

  predicate ValidEnvironment(entries: seq<EnvironmentFingerprint>, rerunEnv: seq<string>) {
    && (forall i :: 0 < i < |entries| ==> Less(entries[i - 1].name, entries[i].name))
    && Names(entries) == rerunEnv
    && (forall i :: 0 <= i < |entries| ==>
          ValidEnvironmentName(entries[i].name) && MaybeDigest(entries[i].valueDigest))
  }

  predicate ValidFileEntry(file: FileFingerprint, mode: FilesMode, rerunFiles: seq<string>) {
    && ParseFile(file.path).Some?
    && MaybeDigest(file.digest)
    && (mode.AllProjectFiles? ==>
          rerunFiles == [] && file.digest.Some? && !(ARTIFACT_ROOT <= ParseFile(file.path).value))
  }

  function FilePaths(files: seq<FileFingerprint>): (r: seq<string>)
    ensures |r| == |files| && forall i :: 0 <= i < |r| ==> r[i] == files[i].path
  {
    seq(|files|, i requires 0 <= i < |files| => files[i].path)
  }

  function Names(entries: seq<EnvironmentFingerprint>): (r: seq<string>)
    ensures |r| == |entries| && forall i :: 0 <= i < |r| ==> r[i] == entries[i].name
  {
    seq(|entries|, i requires 0 <= i < |entries| => entries[i].name)
  }

  predicate ValidOutput(output: OutputArtifact) {
    && ParseFile(output.path).Some?
    && BelowOutputRoot(ParseFile(output.path).value)
    && IsDigest(output.digest)
  }

  predicate ValidOutputs(outputs: seq<OutputArtifact>) {
    && (forall i :: 0 < i < |outputs| ==> Less(outputs[i - 1].path, outputs[i].path))
    && (forall i :: 0 <= i < |outputs| ==> ValidOutput(outputs[i]))
  }

  function OutputKey(output: OutputArtifact): (FileKey, Digest)
    requires ValidOutput(output)
  {
    (ParseFile(output.path).value, output.digest.digest)
  }

  function OutputKeys(outputs: seq<OutputArtifact>): (r: seq<(FileKey, Digest)>)
    requires forall i :: 0 <= i < |outputs| ==> ValidOutput(outputs[i])
    ensures |r| == |outputs|
    ensures forall i :: 0 <= i < |r| ==> r[i] == OutputKey(outputs[i])
  {
    seq(|outputs|, i requires 0 <= i < |outputs| => OutputKey(outputs[i]))
  }

  // The name and severity checks a record must pass besides its structure.
  predicate ValidNames(compileEnv: map<string, string>, runEnv: map<string, string>,
                       metadata: map<string, string>)
  {
    && (forall name <- compileEnv.Keys + runEnv.Keys :: ValidEnvironmentName(name))
    && "" !in metadata
  }

  predicate AllWarnings(diagnostics: seq<Diagnostic>) {
    forall d <- diagnostics :: d.severity.Warning?
  }

  predicate ValidHeader(p: Platform, wire: StateWire, scope: Scope, script: FileKey) {
    && wire.stateVersion == STATE_VERSION && wire.apiVersion == API_VERSION
    && ScopeMatches(wire.cacheScope, scope)
    && wire.scriptPath == Render(script)
    && IsDigest(wire.fingerprint)
    && Of(p.encodeInputs(wire.fingerprintInputs)) == wire.fingerprint.digest
  }

  predicate ValidSets(wire: StateWire) {
    && ParseFileSet(wire.generatedSources).Some?
    && ParseFileSet(wire.additionalClasspath).Some?
    && ParseFileSet(wire.additionalModulePath).Some?
    && ParseFileSet(wire.rerunFiles).Some?
    && Ascending(Less, wire.rerunEnv)
  }

  predicate ValidWire(p: Platform, wire: StateWire, scope: Scope, script: FileKey) {
    && ValidHeader(p, wire, scope, script)
    && ValidInputs(wire.fingerprintInputs, scope, script, wire.rerunFiles, wire.rerunEnv)
    && ValidOutputs(wire.outputs)
    && ValidSets(wire)
    && (forall name <- wire.rerunEnv :: ValidEnvironmentName(name))
    && ValidNames(wire.compileEnv, wire.runEnv, wire.metadata)
    && p.validPlan(wire.taskPlan, wire.fingerprintInputs.limits.TaskPlanLimits())
    && AllWarnings(wire.diagnostics)
  }

  function Decode(p: Platform, wire: StateWire, scope: Scope, script: FileKey): Decoded
    requires ValidWire(p, wire, scope, script)
  {
    Decoded(
      wire.fingerprint.digest,
      OutputKeys(wire.outputs),
      Directives(
        ParseFileSet(wire.generatedSources).value,
        ParseFileSet(wire.additionalClasspath).value,
        ParseFileSet(wire.additionalModulePath).value,
        wire.javacArgs, wire.jvmArgs, wire.compileEnv, wire.runEnv,
        ParseFileSet(wire.rerunFiles).value, Elements(wire.rerunEnv),
        wire.diagnostics, wire.metadata, wire.taskPlan))
  }

  function DecodeState(p: Platform, bytes: Bytes, scope: Scope, script: FileKey): Option<Decoded> {
    var wire := p.decodeState(bytes);
    if wire.Some? && p.encodeState(wire.value) == bytes && ValidWire(p, wire.value, scope, script)
    then Some(Decode(p, wire.value, scope, script))
    else None
  }

  // ---- Writing a set of keys and reading it back ----

  lemma FileSetParses(keys: set<FileKey>)
    ensures ParseFileSet(RenderSet(keys)).Some? <==> RenderedInOrder(keys)
    ensures RenderedInOrder(keys) ==> ParseFileSet(RenderSet(keys)) == Some(keys)
  {
    var listed := SortedKeys(keys);
    var texts := RenderSet(keys);
    forall i | 0 <= i < |listed|
      ensures ParseFile(texts[i]) == Some(listed[i])
    {
      RenderParses(listed[i]);
    }
    if RenderedInOrder(keys) {
      var parsed := set value <- texts :: ParseFile(value).value;
      forall key ensures key in parsed <==> key in keys {
        if key in keys {
          var i :| 0 <= i < |listed| && listed[i] == key;
          assert texts[i] in texts;
        }
      }
      assert parsed == keys;
    }
  }

  // A set of keys is the only one an ascending list of renderings stands for.
  lemma FileSetUnique(a: seq<string>, b: seq<string>)
    requires ParseFileSet(a).Some? && ParseFileSet(a) == ParseFileSet(b)
    ensures a == b
  {
    LessIsStrict();
    forall x ensures x in a <==> x in b {
      if x in a { FileSetMember(a, b, x); }
      if x in b { FileSetMember(b, a, x); }
    }
    AscendingUnique(Less, a, b);
  }

  lemma FileSetMember(a: seq<string>, b: seq<string>, x: string)
    requires ParseFileSet(a).Some? && ParseFileSet(a) == ParseFileSet(b) && x in a
    ensures x in b
  {
    var key := ParseFile(x).value;
    assert key in ParseFileSet(a).value;
    var y :| y in b && ParseFile(y).value == key;
    ParseRenders(x);
    ParseRenders(y);
  }

  // ---- Round trip ----

  // What an evaluation result must satisfy, beyond being one, for its record to be accepted. Every
  // part can be checked before the record is written.
  predicate Recordable(p: Platform, at: Setting, pending: Pending) {
    var d := pending.directives;
    && ListsInOrder(at, pending)
    && (forall key <- pending.generated :: ["target", "jals", "build", "script", "out"] < key)
    && (forall name <- d.rerunEnv :: UsableName(name))
    && Registrable(p, d.compileEnv, d.runEnv, d.metadata, d.taskPlan, d.diagnostics, at.limits)
  }

  predicate UsableName(name: string) {
    name != "" && !exists i :: 0 <= i < |name| && (name[i] == '=' || name[i] == '\0')
  }

  // Environment names are usable, no metadata is nameless, the plan is accepted, and no diagnostic is
  // an error.
  predicate Registrable(p: Platform, compileEnv: map<string, string>, runEnv: map<string, string>,
                        metadata: map<string, string>, plan: TaskPlan, diagnostics: seq<Diagnostic>, limits: Limits)
  {
    && (forall name <- compileEnv :: UsableName(name)) && (forall name <- runEnv :: UsableName(name))
    && "" !in metadata
    && p.validPlan(plan, PlanLimits(limits))
    && forall diagnostic <- diagnostics :: diagnostic.severity != Severity.Error
  }

  lemma NameExactly(name: string)
    ensures ValidEnvironmentName(name) <==> UsableName(name)
  {
  }

  lemma NamesExactly(names: set<string>)
    ensures (forall name <- names :: ValidEnvironmentName(name)) <==> forall name <- names :: UsableName(name)
  {
    forall name <- names ensures ValidEnvironmentName(name) <==> UsableName(name) {
      NameExactly(name);
    }
  }

  lemma RegistrableExactly(p: Platform, compileEnv: map<string, string>, runEnv: map<string, string>,
                           metadata: map<string, string>, plan: TaskPlan, diagnostics: seq<Diagnostic>, limits: Limits)
    ensures Registrable(p, compileEnv, runEnv, metadata, plan, diagnostics, limits) <==>
      ValidNames(compileEnv, runEnv, metadata) && p.validPlan(plan, limits.TaskPlanLimits()) && AllWarnings(diagnostics)
  {
    NamesExactly(compileEnv.Keys);
    NamesExactly(runEnv.Keys);
    assert (forall name <- compileEnv.Keys + runEnv.Keys :: ValidEnvironmentName(name)) <==>
      (forall name <- compileEnv.Keys :: ValidEnvironmentName(name))
      && (forall name <- runEnv.Keys :: ValidEnvironmentName(name));
  }

  // The limits a task plan is held to.
  function PlanLimits(l: Limits): TaskLimits {
    TaskLimits(l.maxTasks, l.maxTaskEdges, l.maxTaskLiteralBytes, l.maxTaskTerminals, l.maxPublicationRoots,
               l.maxFetchBytes, l.maxPathBytes, l.maxPathDepth)
  }

  // Every set of keys the record lists is in order as text. This is the part no script can be
  // blamed for: it depends on which files the project happens to hold.
  predicate ListsInOrder(at: Setting, pending: Pending) {
    var d := pending.directives;
    && RenderedInOrder(Tracked(at.files, at.classesDir, d.rerunFiles))
    && RenderedInOrder(pending.generated.Keys)
    && RenderedInOrder(d.generatedSources)
    && RenderedInOrder(d.additionalClasspath)
    && RenderedInOrder(d.additionalModulePath)
  }

  function OutputDigests(generated: Tree): (r: seq<(FileKey, Digest)>)
    ensures |r| == |generated|
  {
    var keys := SortedKeys(generated.Keys);
    seq(|keys|, i requires 0 <= i < |keys| => (keys[i], Of(generated[keys[i]])))
  }

  function StateBytes(p: Platform, at: Setting, scope: Scope, script: FileKey, pending: Pending): Bytes
    requires script in at.files
  {
    var inputs := InputsAt(at, scope, script, DeclaredBy(pending.directives));
    p.encodeState(WireOf(scope, script, pending, inputs, Of(p.encodeInputs(inputs))))
  }

  function ModeOf(declared: DeclaredInputs): FilesMode {
    if declared.files == {} then AllProjectFiles else Declared
  }

  lemma TrackedEntriesValid(at: Setting, declared: DeclaredInputs)
    ensures var entries := FileEntries(at.files, SortedKeys(Tracked(at.files, at.classesDir, declared.files)));
      forall i :: 0 <= i < |entries| ==> ValidFileEntry(entries[i], ModeOf(declared), RenderSet(declared.files))
  {
    var tracked := SortedKeys(Tracked(at.files, at.classesDir, declared.files));
    var entries := FileEntries(at.files, tracked);
    forall i | 0 <= i < |entries|
      ensures ValidFileEntry(entries[i], ModeOf(declared), RenderSet(declared.files))
    {
      RenderParses(tracked[i]);
      assert tracked[i] in Tracked(at.files, at.classesDir, declared.files);
      if ARTIFACT_ROOT <= tracked[i] {
        assert tracked[i][..2] == ARTIFACT_ROOT[..2] == MANAGED_ROOT;
      }
    }
  }

  lemma FilesAccepted(at: Setting, declared: DeclaredInputs)
    ensures var tracked := Tracked(at.files, at.classesDir, declared.files);
      ValidFiles(FileEntries(at.files, SortedKeys(tracked)), ModeOf(declared), RenderSet(declared.files))
      <==> RenderedInOrder(tracked)
  {
    var tracked := Tracked(at.files, at.classesDir, declared.files);
    var entries := FileEntries(at.files, SortedKeys(tracked));
    TrackedEntriesValid(at, declared);
    assert FilePaths(entries) == RenderSet(tracked);
    assert |RenderSet(declared.files)| == |declared.files|;
    forall i | 0 < i < |entries|
      ensures Less(entries[i - 1].path, entries[i].path) <==>
              Less(RenderSet(tracked)[i - 1], RenderSet(tracked)[i])
    {
    }
  }

  lemma EnvironmentNames(environment: Environment, names: set<string>)
    ensures var listed := SortedStrings(names);
      var entries := EnvironmentEntries(environment, listed);
      && Names(entries) == listed
      && ((forall i :: 0 <= i < |entries| ==> ValidEnvironmentName(entries[i].name))
          <==> forall name <- names :: ValidEnvironmentName(name))
  {
    var listed := SortedStrings(names);
    var entries := EnvironmentEntries(environment, listed);
    assert Names(entries) == listed;
    if forall i :: 0 <= i < |entries| ==> ValidEnvironmentName(entries[i].name) {
      forall name | name in names ensures ValidEnvironmentName(name) {
        assert name in listed;
        var i :| 0 <= i < |listed| && listed[i] == name;
        assert ValidEnvironmentName(entries[i].name);
      }
    }
    if forall name <- names :: ValidEnvironmentName(name) {
      forall i | 0 <= i < |entries| ensures ValidEnvironmentName(entries[i].name) {
        assert listed[i] in names;
      }
    }
  }

  lemma EnvironmentAccepted(environment: Environment, names: set<string>)
    ensures ValidEnvironment(EnvironmentEntries(environment, SortedStrings(names)), SortedStrings(names))
      <==> forall name <- names :: ValidEnvironmentName(name)
  {
    EnvironmentNames(environment, names);
    var entries := EnvironmentEntries(environment, SortedStrings(names));
    assert forall i :: 0 <= i < |entries| ==> MaybeDigest(entries[i].valueDigest);
    assert forall i :: 0 < i < |entries| ==> Less(entries[i - 1].name, entries[i].name);
  }

  lemma InputsAccepted(at: Setting, scope: Scope, script: FileKey, declared: DeclaredInputs)
    requires script in at.files
    ensures ValidInputs(InputsAt(at, scope, script, declared), scope, script,
                        RenderSet(declared.files), SortedStrings(declared.env)) <==>
            && RenderedInOrder(Tracked(at.files, at.classesDir, declared.files))
            && (forall name <- declared.env :: ValidEnvironmentName(name))
  {
    FilesAccepted(at, declared);
    EnvironmentAccepted(at.environment, declared.env);
  }

  lemma OutputEntryAccepted(generated: Tree, keys: seq<FileKey>, i: nat)
    requires i < |keys| && forall key :: key in keys ==> key in generated
    ensures var entry := OutputEntries(generated, keys)[i];
      && (ValidOutput(entry) <==> BelowOutputRoot(keys[i]))
      && (ValidOutput(entry) ==> OutputKey(entry) == (keys[i], Of(generated[keys[i]])))
  {
    RenderParses(keys[i]);
  }

  lemma OutputsInOrder(generated: Tree)
    ensures var entries := OutputEntries(generated, SortedKeys(generated.Keys));
      (forall i :: 0 < i < |entries| ==> Less(entries[i - 1].path, entries[i].path)) <==>
        RenderedInOrder(generated.Keys)
  {
    var entries := OutputEntries(generated, SortedKeys(generated.Keys));
    var texts := RenderSet(generated.Keys);
    forall i | 0 < i < |entries|
      ensures Less(entries[i - 1].path, entries[i].path) <==> Less(texts[i - 1], texts[i])
    {
    }
  }

  lemma OutputsBelow(generated: Tree)
    ensures var entries := OutputEntries(generated, SortedKeys(generated.Keys));
      (forall i :: 0 <= i < |entries| ==> ValidOutput(entries[i])) <==>
        (forall key <- generated :: BelowOutputRoot(key))
  {
    var keys := SortedKeys(generated.Keys);
    var entries := OutputEntries(generated, keys);
    forall i | 0 <= i < |keys| ensures ValidOutput(entries[i]) <==> BelowOutputRoot(keys[i]) {
      OutputEntryAccepted(generated, keys, i);
    }
    if forall i :: 0 <= i < |entries| ==> ValidOutput(entries[i]) {
      forall key | key in generated ensures BelowOutputRoot(key) {
        assert key in keys;
        var i :| 0 <= i < |keys| && keys[i] == key;
        assert ValidOutput(entries[i]);
      }
    }
  }

  lemma OutputsAccepted(generated: Tree)
    ensures ValidOutputs(OutputEntries(generated, SortedKeys(generated.Keys))) <==>
            && RenderedInOrder(generated.Keys)
            && (forall key <- generated :: BelowOutputRoot(key))
    ensures ValidOutputs(OutputEntries(generated, SortedKeys(generated.Keys))) ==>
            OutputKeys(OutputEntries(generated, SortedKeys(generated.Keys))) == OutputDigests(generated)
  {
    var keys := SortedKeys(generated.Keys);
    var entries := OutputEntries(generated, keys);
    OutputsInOrder(generated);
    OutputsBelow(generated);
    if ValidOutputs(entries) {
      var read, listed := OutputKeys(entries), OutputDigests(generated);
      forall i | 0 <= i < |keys| ensures read[i] == listed[i] {
        OutputEntryAccepted(generated, keys, i);
      }
      assert read == listed;
    }
  }

  lemma SetsAccepted(wire: StateWire, d: Directives)
    requires wire.generatedSources == RenderSet(d.generatedSources)
    requires wire.additionalClasspath == RenderSet(d.additionalClasspath)
    requires wire.additionalModulePath == RenderSet(d.additionalModulePath)
    requires wire.rerunFiles == RenderSet(d.rerunFiles)
    requires wire.rerunEnv == SortedStrings(d.rerunEnv)
    ensures ValidSets(wire) <==>
            && RenderedInOrder(d.generatedSources) && RenderedInOrder(d.additionalClasspath)
            && RenderedInOrder(d.additionalModulePath) && RenderedInOrder(d.rerunFiles)
    ensures ValidSets(wire) ==>
            && ParseFileSet(wire.generatedSources).value == d.generatedSources
            && ParseFileSet(wire.additionalClasspath).value == d.additionalClasspath
            && ParseFileSet(wire.additionalModulePath).value == d.additionalModulePath
            && ParseFileSet(wire.rerunFiles).value == d.rerunFiles
            && Elements(wire.rerunEnv) == d.rerunEnv
  {
    FileSetParses(d.generatedSources);
    FileSetParses(d.additionalClasspath);
    FileSetParses(d.additionalModulePath);
    FileSetParses(d.rerunFiles);
    assert Elements(SortedStrings(d.rerunEnv)) == d.rerunEnv;
  }

  // The parts of a written record that its structure decides.
  lemma WrittenParts(p: Platform, at: Setting, scope: Scope, script: FileKey, pending: Pending, wire: StateWire)
    requires script in at.files
    requires var inputs := InputsAt(at, scope, script, DeclaredBy(pending.directives));
      wire == WireOf(scope, script, pending, inputs, Of(p.encodeInputs(inputs)))
    ensures ValidHeader(p, wire, scope, script)
    ensures (ValidInputs(wire.fingerprintInputs, scope, script, wire.rerunFiles, wire.rerunEnv)
             && ValidOutputs(wire.outputs) && ValidSets(wire)
             && forall name <- wire.rerunEnv :: ValidEnvironmentName(name)) <==>
            && ListsInOrder(at, pending)
            && (forall key <- pending.generated :: BelowOutputRoot(key))
            && (forall name <- pending.directives.rerunEnv :: ValidEnvironmentName(name))
  {
    var d := pending.directives;
    InputsAccepted(at, scope, script, DeclaredBy(d));
    OutputsAccepted(pending.generated);
    SetsAccepted(wire, d);
    EmptySetInOrder(d.rerunFiles);
  }

  lemma WrittenDecodes(p: Platform, at: Setting, scope: Scope, script: FileKey, pending: Pending, wire: StateWire)
    requires script in at.files
    requires var inputs := InputsAt(at, scope, script, DeclaredBy(pending.directives));
      wire == WireOf(scope, script, pending, inputs, Of(p.encodeInputs(inputs)))
    requires ValidWire(p, wire, scope, script)
    ensures Decode(p, wire, scope, script)
         == Decoded(wire.fingerprint.digest, OutputDigests(pending.generated), pending.directives)
  {
    OutputsAccepted(pending.generated);
    SetsAccepted(wire, pending.directives);
  }

  lemma RecordableExactly(p: Platform, at: Setting, pending: Pending)
    ensures var d := pending.directives;
      Recordable(p, at, pending) <==>
        && ListsInOrder(at, pending)
        && (forall key <- pending.generated :: BelowOutputRoot(key))
        && (forall name <- d.rerunEnv :: ValidEnvironmentName(name))
        && Registrable(p, d.compileEnv, d.runEnv, d.metadata, d.taskPlan, d.diagnostics, at.limits)
  {
    NamesExactly(pending.directives.rerunEnv);
  }

  lemma WireDecides(p: Platform, at: Setting, scope: Scope, script: FileKey, pending: Pending, wire: StateWire)
    requires script in at.files
    requires var inputs := InputsAt(at, scope, script, DeclaredBy(pending.directives));
      wire == WireOf(scope, script, pending, inputs, Of(p.encodeInputs(inputs)))
    ensures var d := pending.directives;
      ValidWire(p, wire, scope, script) <==>
        && ListsInOrder(at, pending)
        && (forall key <- pending.generated :: BelowOutputRoot(key))
        && (forall name <- d.rerunEnv :: ValidEnvironmentName(name))
        && Registrable(p, d.compileEnv, d.runEnv, d.metadata, d.taskPlan, d.diagnostics, at.limits)
  {
    var d := pending.directives;
    WrittenParts(p, at, scope, script, pending, wire);
    RegistrableExactly(p, d.compileEnv, d.runEnv, d.metadata, d.taskPlan, d.diagnostics, at.limits);
  }

  lemma WireAccepted(p: Platform, at: Setting, scope: Scope, script: FileKey, pending: Pending)
    requires script in at.files
    ensures var inputs := InputsAt(at, scope, script, DeclaredBy(pending.directives));
      var wire := WireOf(scope, script, pending, inputs, Of(p.encodeInputs(inputs)));
      && (ValidWire(p, wire, scope, script) <==> Recordable(p, at, pending))
      && (ValidWire(p, wire, scope, script) ==>
            Decode(p, wire, scope, script) ==
            Decoded(Of(p.encodeInputs(inputs)), OutputDigests(pending.generated), pending.directives))
  {
    var inputs := InputsAt(at, scope, script, DeclaredBy(pending.directives));
    var wire := WireOf(scope, script, pending, inputs, Of(p.encodeInputs(inputs)));
    WireDecides(p, at, scope, script, pending, wire);
    RecordableExactly(p, at, pending);
    if ValidWire(p, wire, scope, script) {
      WrittenDecodes(p, at, scope, script, pending, wire);
    }
  }

  lemma EmptySetInOrder(keys: set<FileKey>)
    ensures keys == {} ==> RenderedInOrder(keys)
  {
  }

  // Reading back a record gives exactly what was written when the result is recordable, and nothing
  // at all when it is not.
  lemma RecordReadsBack(p: Platform, at: Setting, scope: Scope, script: FileKey, pending: Pending)
    requires p.Faithful() && script in at.files
    ensures DecodeState(p, StateBytes(p, at, scope, script, pending), scope, script) ==
      if Recordable(p, at, pending) then
        var inputs := InputsAt(at, scope, script, DeclaredBy(pending.directives));
        Some(Decoded(Of(p.encodeInputs(inputs)), OutputDigests(pending.generated), pending.directives))
      else None
  {
    var inputs := InputsAt(at, scope, script, DeclaredBy(pending.directives));
    var wire := WireOf(scope, script, pending, inputs, Of(p.encodeInputs(inputs)));
    assert p.decodeState(p.encodeState(wire)) == Some(wire);
    WireAccepted(p, at, scope, script, pending);
  }

  // Two tracked files in inverted order are enough: such a project's results never read back.
  lemma InvertedNeverRecorded(p: Platform, at: Setting, scope: Scope, script: FileKey, pending: Pending,
                              a: FileKey, b: FileKey)
    requires p.Faithful() && script in at.files
    requires var tracked := Tracked(at.files, at.classesDir, pending.directives.rerunFiles);
      a in tracked && b in tracked && Inverted(a, b)
    ensures DecodeState(p, StateBytes(p, at, scope, script, pending), scope, script) == None
  {
    RenderedInOrderExactly(Tracked(at.files, at.classesDir, pending.directives.rerunFiles));
    RecordReadsBack(p, at, scope, script, pending);
  }

  // Concretely: a directory `src` beside a file `src.txt`, when the script declares no inputs.
  lemma SiblingNeverRecorded(p: Platform, at: Setting, scope: Scope, script: FileKey, pending: Pending)
    requires p.Faithful() && script in at.files && pending.directives.rerunFiles == {}
    requires ["src", "A"] in at.files.Keys && ["src.txt"] in at.files.Keys
    requires !Unseen(at.classesDir, ["src", "A"]) && !Unseen(at.classesDir, ["src.txt"])
    ensures DecodeState(p, StateBytes(p, at, scope, script, pending), scope, script) == None
  {
    SiblingFileInverts();
    TrackedUnless(at, ["src", "A"]);
    TrackedUnless(at, ["src.txt"]);
    InvertedNeverRecorded(p, at, scope, script, pending, ["src", "A"], ["src.txt"]);
  }

  // ---- Canonicity ----

  ghost predicate Writes(text: string, key: FileKey) {
    Render(key) == text
  }

  ghost predicate WritesKeys(texts: seq<string>) {
    Ascending(Less, texts) && forall text <- texts :: exists key: FileKey :: Writes(text, key)
  }

  // The fingerprint part of a record jals accepts: taken by this version, of this scope and script, with
  // digests throughout; its files are the declared ones or, if none are, project files that are there
  // and outside the artifact root.
  ghost predicate InputsAcceptable(inputs: FingerprintInputs, scope: Scope, script: FileKey, rerunFiles: seq<string>,
                                   rerunEnv: seq<string>)
  {
    && inputs.stateVersion == 9 && inputs.apiVersion == 11 && inputs.scriptPath == Render(script)
    && inputs.cacheScope == (if scope.Root? then None else Some(Hex(scope.digest)))
    && inputs.scriptDigest.Hex? && (inputs.manifestDigest == None || inputs.manifestDigest.value.Hex?)
    && Ascending(Less, inputs.features) && Ascending(Less, FilePaths(inputs.files)) && Ascending(Less, rerunEnv)
    && Names(inputs.environment) == rerunEnv
    && (inputs.filesMode.AllProjectFiles? <==> rerunFiles == [])
    && (rerunFiles != [] ==> FilePaths(inputs.files) == rerunFiles)
    && (forall entry <- inputs.environment :: entry.valueDigest == None || entry.valueDigest.value.Hex?)
    && (forall file <- inputs.files :: FileAcceptable(file, rerunFiles))
  }

  ghost predicate FileAcceptable(file: FileFingerprint, rerunFiles: seq<string>) {
    && (file.digest == None || file.digest.value.Hex?)
    && (exists key: FileKey :: Writes(file.path, key))
    && (rerunFiles == [] ==> file.digest != None)
    && (rerunFiles == [] ==> forall key: FileKey :: Writes(file.path, key) ==> !(["target", "jals", "build"] <= key))
  }

  ghost predicate OutputAcceptable(output: OutputArtifact) {
    output.digest.Hex? &&
    exists key: FileKey :: Writes(output.path, key) && ["target", "jals", "build", "script", "out"] < key
  }

  // A record jals accepts: for this scope and script, with the fingerprint of its own inputs, outputs
  // in order below the output root, sets of paths in order, usable names, an accepted task plan, and
  // no error among its diagnostics.
  ghost predicate Acceptable(p: Platform, wire: StateWire, scope: Scope, script: FileKey) {
    && wire.stateVersion == 9 && wire.apiVersion == 11 && wire.scriptPath == Render(script)
    && wire.cacheScope == (if scope.Root? then None else Some(Hex(scope.digest)))
    && wire.fingerprint == Hex(Of(p.encodeInputs(wire.fingerprintInputs)))
    && InputsAcceptable(wire.fingerprintInputs, scope, script, wire.rerunFiles, wire.rerunEnv)
    && (forall i :: 0 < i < |wire.outputs| ==> Less(wire.outputs[i - 1].path, wire.outputs[i].path))
    && (forall output <- wire.outputs :: OutputAcceptable(output))
    && WritesKeys(wire.generatedSources) && WritesKeys(wire.additionalClasspath)
    && WritesKeys(wire.additionalModulePath) && WritesKeys(wire.rerunFiles)
    && (forall name <- wire.rerunEnv :: UsableName(name))
    && Registrable(p, wire.compileEnv, wire.runEnv, wire.metadata, wire.taskPlan, wire.diagnostics,
                   wire.fingerprintInputs.limits)
  }

  lemma WritesExactly(text: string, key: FileKey)
    ensures Writes(text, key) <==> ParseFile(text) == Some(key)
  {
    RenderParses(key);
    ParseRenders(text);
  }

  lemma WrittenExactly(text: string)
    ensures ParseFile(text).Some? <==> exists key: FileKey :: Writes(text, key)
  {
    if ParseFile(text).Some? {
      WritesExactly(text, ParseFile(text).value);
    }
    if key: FileKey :| Writes(text, key) {
      WritesExactly(text, key);
    }
  }

  lemma SetExactly(texts: seq<string>)
    ensures ParseFileSet(texts).Some? <==> WritesKeys(texts)
  {
    forall text <- texts ensures ParseFile(text).Some? <==> exists key: FileKey :: Writes(text, key) {
      WrittenExactly(text);
    }
  }

  lemma OutputExactly(output: OutputArtifact)
    ensures ValidOutput(output) <==> OutputAcceptable(output)
  {
    WrittenExactly(output.path);
    if ParseFile(output.path).Some? {
      WritesExactly(output.path, ParseFile(output.path).value);
      forall key: FileKey ensures Writes(output.path, key) ==> key == ParseFile(output.path).value {
        WritesExactly(output.path, key);
      }
    }
  }

  lemma FilesExactly(files: seq<FileFingerprint>, mode: FilesMode, rerunFiles: seq<string>)
    ensures ValidFiles(files, mode, rerunFiles) <==>
      && Ascending(Less, FilePaths(files))
      && (mode.AllProjectFiles? <==> rerunFiles == [])
      && (rerunFiles != [] ==> FilePaths(files) == rerunFiles)
      && forall file <- files :: FileAcceptable(file, rerunFiles)
  {
    if mode.AllProjectFiles? <==> rerunFiles == [] {
      forall i | 0 <= i < |files|
        ensures ValidFileEntry(files[i], mode, rerunFiles) <==> FileAcceptable(files[i], rerunFiles)
      {
        FileExactly(files[i], mode, rerunFiles);
      }
    }
  }

  lemma FileExactly(file: FileFingerprint, mode: FilesMode, rerunFiles: seq<string>)
    requires mode.AllProjectFiles? <==> rerunFiles == []
    ensures ValidFileEntry(file, mode, rerunFiles) <==> FileAcceptable(file, rerunFiles)
  {
    WrittenExactly(file.path);
    if ParseFile(file.path).Some? {
      WritesExactly(file.path, ParseFile(file.path).value);
      forall key: FileKey ensures Writes(file.path, key) ==> key == ParseFile(file.path).value {
        WritesExactly(file.path, key);
      }
    }
  }

  lemma EnvironmentExactly(entries: seq<EnvironmentFingerprint>, rerunEnv: seq<string>)
    ensures ValidEnvironment(entries, rerunEnv) <==>
      && Ascending(Less, rerunEnv) && Names(entries) == rerunEnv
      && (forall name <- rerunEnv :: UsableName(name))
      && forall entry <- entries :: entry.valueDigest == None || entry.valueDigest.value.Hex?
  {
    forall name <- rerunEnv ensures ValidEnvironmentName(name) <==> UsableName(name) {
      NameExactly(name);
    }
    if Names(entries) == rerunEnv {
      assert forall i :: 0 <= i < |entries| ==> rerunEnv[i] == entries[i].name && rerunEnv[i] in rerunEnv;
    }
  }

  lemma InputsExactly(inputs: FingerprintInputs, scope: Scope, script: FileKey, rerunFiles: seq<string>,
                      rerunEnv: seq<string>)
    ensures ValidInputs(inputs, scope, script, rerunFiles, rerunEnv) <==>
      InputsAcceptable(inputs, scope, script, rerunFiles, rerunEnv) && forall name <- rerunEnv :: UsableName(name)
  {
    FilesExactly(inputs.files, inputs.filesMode, rerunFiles);
    EnvironmentExactly(inputs.environment, rerunEnv);
  }

  lemma OutputsExactly(outputs: seq<OutputArtifact>)
    ensures ValidOutputs(outputs) <==>
      && (forall i :: 0 < i < |outputs| ==> Less(outputs[i - 1].path, outputs[i].path))
      && forall output <- outputs :: OutputAcceptable(output)
  {
    forall i | 0 <= i < |outputs| ensures ValidOutput(outputs[i]) <==> OutputAcceptable(outputs[i]) {
      OutputExactly(outputs[i]);
    }
  }

  lemma WireExactly(p: Platform, wire: StateWire, scope: Scope, script: FileKey)
    ensures ValidWire(p, wire, scope, script) <==> Acceptable(p, wire, scope, script)
  {
    SetExactly(wire.generatedSources);
    SetExactly(wire.additionalClasspath);
    SetExactly(wire.additionalModulePath);
    SetExactly(wire.rerunFiles);
    OutputsExactly(wire.outputs);
    InputsExactly(wire.fingerprintInputs, scope, script, wire.rerunFiles, wire.rerunEnv);
    RegistrableExactly(p, wire.compileEnv, wire.runEnv, wire.metadata, wire.taskPlan, wire.diagnostics,
                       wire.fingerprintInputs.limits);
    forall name <- wire.rerunEnv ensures ValidEnvironmentName(name) <==> UsableName(name) {
      NameExactly(name);
    }
  }

  // Which bytes are read back: the canonical writing of a record that is acceptable here.
  lemma AcceptedExactly(p: Platform, bytes: Bytes, scope: Scope, script: FileKey)
    ensures DecodeState(p, bytes, scope, script).Some? <==>
      && p.decodeState(bytes).Some? && p.encodeState(p.decodeState(bytes).value) == bytes
      && Acceptable(p, p.decodeState(bytes).value, scope, script)
  {
    if p.decodeState(bytes).Some? {
      WireExactly(p, p.decodeState(bytes).value, scope, script);
    }
  }

  // What an accepted record is known to be.
  lemma AcceptedShape(p: Platform, bytes: Bytes, scope: Scope, script: FileKey)
    requires DecodeState(p, bytes, scope, script).Some?
    ensures p.decodeState(bytes).Some? && p.encodeState(p.decodeState(bytes).value) == bytes
    ensures var state := DecodeState(p, bytes, scope, script).value;
      && (forall i :: 0 < i < |state.outputs| ==>
            Less(Render(state.outputs[i - 1].0), Render(state.outputs[i].0)))
      && (forall i :: 0 <= i < |state.outputs| ==> BelowOutputRoot(state.outputs[i].0))
      && AllWarnings(state.directives.diagnostics)
  {
    var wire := p.decodeState(bytes).value;
    var state := Decode(p, wire, scope, script);
    forall i | 0 <= i < |state.outputs|
      ensures Render(state.outputs[i].0) == wire.outputs[i].path && BelowOutputRoot(state.outputs[i].0)
    {
      assert ValidOutput(wire.outputs[i]);
      ParseRenders(wire.outputs[i].path);
    }
  }

  lemma OutputsUnique(a: seq<OutputArtifact>, b: seq<OutputArtifact>)
    requires ValidOutputs(a) && ValidOutputs(b) && OutputKeys(a) == OutputKeys(b)
    ensures a == b
  {
    assert |a| == |OutputKeys(a)| == |OutputKeys(b)| == |b|;
    forall i | 0 <= i < |a|
      ensures a[i] == b[i]
    {
      assert ValidOutput(a[i]) && ValidOutput(b[i]) && OutputKeys(a)[i] == OutputKeys(b)[i];
      ParseRenders(a[i].path);
      ParseRenders(b[i].path);
    }
  }

  lemma SetsUnique(p: Platform, v: StateWire, w: StateWire, scope: Scope, script: FileKey)
    requires ValidWire(p, v, scope, script) && ValidWire(p, w, scope, script)
    requires Decode(p, v, scope, script) == Decode(p, w, scope, script)
    ensures v.generatedSources == w.generatedSources
    ensures v.additionalClasspath == w.additionalClasspath
    ensures v.additionalModulePath == w.additionalModulePath
    ensures v.rerunFiles == w.rerunFiles && v.rerunEnv == w.rerunEnv
  {
    var d, e := Decode(p, v, scope, script).directives, Decode(p, w, scope, script).directives;
    assert d == e;
    FileSetUnique(v.generatedSources, w.generatedSources);
    FileSetUnique(v.additionalClasspath, w.additionalClasspath);
    FileSetUnique(v.additionalModulePath, w.additionalModulePath);
    FileSetUnique(v.rerunFiles, w.rerunFiles);
    LessIsStrict();
    AscendingUnique(Less, v.rerunEnv, w.rerunEnv);
  }

  // An accepted record is the only byte string that reads back as what it reads back as.
  lemma AcceptedUnique(p: Platform, a: Bytes, b: Bytes, scope: Scope, script: FileKey)
    requires p.Faithful()
    requires DecodeState(p, a, scope, script).Some?
    requires DecodeState(p, a, scope, script) == DecodeState(p, b, scope, script)
    ensures a == b
  {
    var v, w := p.decodeState(a).value, p.decodeState(b).value;
    var d, e := Decode(p, v, scope, script), Decode(p, w, scope, script);
    SetsUnique(p, v, w, scope, script);
    OutputsUnique(v.outputs, w.outputs);
    assert d.directives == e.directives && d.fingerprint == e.fingerprint;
    assert p.encodeInputs(v.fingerprintInputs) == p.encodeInputs(w.fingerprintInputs);
    assert v == w;
  }
}
