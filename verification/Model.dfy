// What a build script reads, what it produces, and the parts of the program this model takes as
// given: the script engine, the JSON codec, task-plan validation, and UTF-8 and manifest decoding.
module Model {
  import opened Text
  import opened Paths
  import opened Identity

  // A project tree, flat: every file's bytes by key.
  type Tree = map<FileKey, Bytes>

  datatype View = View(revision: nat, files: Tree)

  const MANAGED_ROOT: seq<string> := ["target", "jals"]
  const ARTIFACT_ROOT: seq<string> := ["target", "jals", "build"]
  const OUTPUT_ROOT: seq<string> := ["target", "jals", "build", "script", "out"]

  // Strictly below: the root itself is no output path.
  predicate BelowOutputRoot(key: FileKey) {
    OUTPUT_ROOT < key
  }

  datatype Limits = Limits(
    maxScriptSize: nat, maxOperations: nat, maxStringSize: nat, maxArraySize: nat, maxMapSize: nat,
    maxPathBytes: nat, maxPathDepth: nat, maxHostDirectiveBytes: nat, maxOutputFiles: nat,
    maxOutputFileSize: nat, maxTotalOutputSize: nat, maxCacheStateSize: nat, maxTasks: nat,
    maxTaskEdges: nat, maxTaskLiteralBytes: nat, maxTaskTerminals: nat, maxPublicationRoots: nat,
    maxFetchBytes: nat)
  {
    predicate AllPositive() {
      && maxScriptSize > 0 && maxOperations > 0 && maxStringSize > 0 && maxArraySize > 0
      && maxMapSize > 0 && maxPathBytes > 0 && maxPathDepth > 0 && maxHostDirectiveBytes > 0
      && maxOutputFiles > 0 && maxOutputFileSize > 0 && maxTotalOutputSize > 0
      && maxCacheStateSize > 0 && maxTasks > 0 && maxTaskEdges > 0 && maxTaskLiteralBytes > 0
      && maxTaskTerminals > 0 && maxPublicationRoots > 0 && maxFetchBytes > 0
    }

    function TaskPlanLimits(): TaskLimits {
      TaskLimits(maxTasks, maxTaskEdges, maxTaskLiteralBytes, maxTaskTerminals, maxPublicationRoots,
                 maxFetchBytes, maxPathBytes, maxPathDepth)
    }
  }

  datatype TaskLimits = TaskLimits(
    tasks: nat, edges: nat, literalBytes: nat, terminals: nat, publicationRoots: nat,
    fetchBytes: nat, pathBytes: nat, pathDepth: nat)

  // A declarative task plan, by its canonical text.
  datatype TaskPlan = TaskPlan(canonical: string)

  datatype Environment = Environment(values: map<string, string>, features: set<string>)

  datatype Manifest = Manifest(script: Option<string>, classesDir: string)

  datatype Severity = Warning | Error

  datatype Diagnostic = Diagnostic(severity: Severity, message: string)

  // Everything a script registers besides file bytes. A pending result, a decoded state, and the
  // output a host sees all carry it.
  datatype Directives = Directives(
    generatedSources: set<FileKey>,
    additionalClasspath: set<FileKey>,
    additionalModulePath: set<FileKey>,
    javacArgs: seq<string>,
    jvmArgs: seq<string>,
    compileEnv: map<string, string>,
    runEnv: map<string, string>,
    rerunFiles: set<FileKey>,
    rerunEnv: set<string>,
    diagnostics: seq<Diagnostic>,
    metadata: map<string, string>,
    taskPlan: TaskPlan)

  datatype Pending = Pending(generated: Tree, directives: Directives)

  predicate ReportsError(pending: Pending) {
    exists d <- pending.directives.diagnostics :: d.severity.Error?
  }

  datatype EngineError = Compile(message: string) | Execute(message: string)

  // ---- The persisted record ----

  // A digest field of a record: the canonical hex of a digest, or any other text.
  datatype HexText = Hex(digest: Digest) | Junk(text: string)

  datatype FilesMode = AllProjectFiles | Declared

  datatype FileFingerprint = FileFingerprint(path: string, digest: Option<HexText>)
  datatype EnvironmentFingerprint = EnvironmentFingerprint(name: string, valueDigest: Option<HexText>)
  datatype OutputArtifact = OutputArtifact(path: string, digest: HexText)

  datatype FingerprintInputs = FingerprintInputs(
    stateVersion: nat,
    apiVersion: nat,
    cacheScope: Option<HexText>,
    scriptPath: string,
    scriptDigest: HexText,
    manifestDigest: Option<HexText>,
    limits: Limits,
    filesMode: FilesMode,
    files: seq<FileFingerprint>,
    environment: seq<EnvironmentFingerprint>,
    features: seq<string>)

  datatype StateWire = StateWire(
    stateVersion: nat,
    apiVersion: nat,
    cacheScope: Option<HexText>,
    scriptPath: string,
    fingerprint: HexText,
    fingerprintInputs: FingerprintInputs,
    outputs: seq<OutputArtifact>,
    taskPlan: TaskPlan,
    generatedSources: seq<string>,
    additionalClasspath: seq<string>,
    additionalModulePath: seq<string>,
    javacArgs: seq<string>,
    jvmArgs: seq<string>,
    compileEnv: map<string, string>,
    runEnv: map<string, string>,
    rerunFiles: seq<string>,
    rerunEnv: seq<string>,
    diagnostics: seq<Diagnostic>,
    metadata: map<string, string>)

  // ---- What the program is built on ----

  datatype Platform = Platform(
    evaluate: (Tree, FileKey, Environment, Limits) -> Result<Pending, EngineError>,
    encodeState: StateWire -> Bytes,
    decodeState: Bytes -> Option<StateWire>,
    encodeInputs: FingerprintInputs -> Bytes,
    validPlan: (TaskPlan, TaskLimits) -> bool,
    isText: Bytes -> bool,
    manifestOf: Option<Bytes> -> Manifest)
  {
    // Serialization can be undone.
    ghost predicate Faithful() {
      && (forall wire :: decodeState(encodeState(wire)) == Some(wire))
      && (forall a, b :: encodeInputs(a) == encodeInputs(b) ==> a == b)
    }
  }
}
