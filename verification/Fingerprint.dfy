// The inputs a cached result is keyed on, and what equal fingerprints mean.
module Fingerprint {
  import opened Orders
  import opened Text
  import opened Paths
  import opened Identity
  import opened Model

  const MANIFEST_FILE: FileKey := ManifestFile()

  function ManifestFile(): FileKey {
    ManifestName();
    ["jals.toml"]
  }

  function SortedStrings(s: set<string>): (r: seq<string>)
    ensures |r| == |s| && Ascending(Less, r)
    ensures forall x :: x in r <==> x in s
  {
    LessIsStrict();
    Sorted(Less, s)
  }

  // Directories a build writes itself: all of `target/jals`, and `classes-dir` when it is a path.
  predicate Derived(key: FileKey, classesDir: string) {
    var classes := ParsePath(classesDir);
    MANAGED_ROOT <= key || (classes.Some? && classes.value <= key)
  }

  // Declared inputs when there are any, otherwise every file that is not derived.
  function Tracked(files: Tree, classesDir: string, rerunFiles: set<FileKey>): set<FileKey> {
    if rerunFiles == {} then set key <- files | !Derived(key, classesDir) else rerunFiles
  }

  function ContentAt(files: Tree, key: FileKey): Option<Bytes> {
    if key in files then Some(files[key]) else None
  }

  function DigestText(content: Option<Bytes>): Option<HexText> {
    match content
    case None => None
    case Some(bytes) => Some(Hex(Of(bytes)))
  }

  function ValueOf(environment: Environment, name: string): Option<string> {
    if name in environment.values then Some(environment.values[name]) else None
  }

  function FileEntries(files: Tree, keys: seq<FileKey>): (r: seq<FileFingerprint>)
    ensures |r| == |keys|
    ensures forall i :: 0 <= i < |keys| ==>
      r[i] == FileFingerprint(Render(keys[i]), DigestText(ContentAt(files, keys[i])))
  {
    seq(|keys|, i requires 0 <= i < |keys| =>
      FileFingerprint(Render(keys[i]), DigestText(ContentAt(files, keys[i]))))
  }

  function EnvironmentEntries(environment: Environment, names: seq<string>): (r: seq<EnvironmentFingerprint>)
    ensures |r| == |names|
    ensures forall i :: 0 <= i < |names| ==>
      r[i] == EnvironmentFingerprint(names[i], DigestText(ValueBytes(environment, names[i])))
  {
    seq(|names|, i requires 0 <= i < |names| =>
      EnvironmentFingerprint(names[i], DigestText(ValueBytes(environment, names[i]))))
  }

  function ValueBytes(environment: Environment, name: string): Option<Bytes> {
    var value := ValueOf(environment, name);
    if value.Some? then Some(Utf8(value.value)) else None
  }

  function ScopeText(scope: Scope): Option<HexText> {
    match scope
    case Root => None
    case Dependency(digest) => Some(Hex(digest))
  }

  // The project, environment, and limits one preparation runs under.
  datatype Setting = Setting(files: Tree, classesDir: string, environment: Environment, limits: Limits)

  datatype DeclaredInputs = DeclaredInputs(files: set<FileKey>, env: set<string>)

  function DeclaredBy(directives: Directives): DeclaredInputs {
    DeclaredInputs(directives.rerunFiles, directives.rerunEnv)
  }

  function Inputs(at: Setting, scope: Scope, script: FileKey, declared: DeclaredInputs): Option<FingerprintInputs> {
    if script in at.files then Some(InputsAt(at, scope, script, declared)) else None
  }

  function InputsAt(at: Setting, scope: Scope, script: FileKey, declared: DeclaredInputs): FingerprintInputs
    requires script in at.files
  {
    FingerprintInputs(
      STATE_VERSION,
      API_VERSION,
      ScopeText(scope),
      Render(script),
      Hex(Of(at.files[script])),
      DigestText(ContentAt(at.files, MANIFEST_FILE)),
      at.limits,
      if declared.files == {} then AllProjectFiles else Declared,
      FileEntries(at.files, SortedKeys(Tracked(at.files, at.classesDir, declared.files))),
      EnvironmentEntries(at.environment, SortedStrings(declared.env)),
      SortedStrings(at.environment.features))
  }

  // ---- What a fingerprint stands for ----

  // Everything of a project, its environment, and its limits that a fingerprint covers.
  datatype Observed = Observed(
    script: Bytes,
    manifest: Option<Bytes>,
    limits: Limits,
    files: map<FileKey, Option<Bytes>>,
    values: map<string, Option<string>>,
    features: set<string>)

  function Observe(at: Setting, script: FileKey, declared: DeclaredInputs): Observed
    requires script in at.files
  {
    Observed(
      at.files[script],
      ContentAt(at.files, MANIFEST_FILE),
      at.limits,
      map key <- Tracked(at.files, at.classesDir, declared.files) :: ContentAt(at.files, key),
      map name <- declared.env :: ValueOf(at.environment, name),
      at.environment.features)
  }

  lemma DigestTextInjective(a: Option<Bytes>, b: Option<Bytes>)
    requires DigestText(a) == DigestText(b)
    ensures a == b
  {
  }

  lemma FileEntriesDetermine(f: Tree, a: set<FileKey>, g: Tree, b: set<FileKey>)
    requires FileEntries(f, SortedKeys(a)) == FileEntries(g, SortedKeys(b))
    ensures a == b && forall key :: key in a ==> ContentAt(f, key) == ContentAt(g, key)
  {
    var s, t := SortedKeys(a), SortedKeys(b);
    var x, y := FileEntries(f, s), FileEntries(g, t);
    assert |s| == |x| == |y| == |t|;
    forall i | 0 <= i < |s|
      ensures s[i] == t[i] && ContentAt(f, s[i]) == ContentAt(g, t[i])
    {
      assert x[i] == y[i];
      RenderInjective(s[i], t[i]);
      DigestTextInjective(ContentAt(f, s[i]), ContentAt(g, t[i]));
    }
    assert s == t;
    forall key ensures key in a <==> key in b {
      assert key in a <==> key in s;
      assert key in b <==> key in t;
    }
  }

  lemma EnvironmentEntriesDetermine(d: Environment, e: Environment, names: set<string>)
    requires EnvironmentEntries(d, SortedStrings(names)) == EnvironmentEntries(e, SortedStrings(names))
    ensures forall name :: name in names ==> ValueOf(d, name) == ValueOf(e, name)
  {
    var s := SortedStrings(names);
    forall name | name in names
      ensures ValueOf(d, name) == ValueOf(e, name)
    {
      var i :| 0 <= i < |s| && s[i] == name;
      assert EnvironmentEntries(d, s)[i] == EnvironmentEntries(e, s)[i];
      DigestTextInjective(ValueBytes(d, name), ValueBytes(e, name));
      if ValueOf(d, name).Some? && ValueOf(e, name).Some? {
        Utf8Injective(ValueOf(d, name).value, ValueOf(e, name).value);
      }
    }
  }

  lemma SortedStringsInjective(a: set<string>, b: set<string>)
    requires SortedStrings(a) == SortedStrings(b)
    ensures a == b
  {
    forall x ensures x in a <==> x in b {
      assert x in a <==> x in SortedStrings(a);
      assert x in b <==> x in SortedStrings(b);
    }
  }

  // Equal fingerprints of one script were taken of the same observations.
  lemma FingerprintCovers(a: Setting, b: Setting, scope: Scope, script: FileKey, declared: DeclaredInputs)
    requires script in a.files && script in b.files
    requires InputsAt(a, scope, script, declared) == InputsAt(b, scope, script, declared)
    ensures Observe(a, script, declared) == Observe(b, script, declared)
  {
    var x, y := InputsAt(a, scope, script, declared), InputsAt(b, scope, script, declared);
    assert x.scriptDigest == y.scriptDigest && x.manifestDigest == y.manifestDigest && x.limits == y.limits;
    DigestTextInjective(ContentAt(a.files, MANIFEST_FILE), ContentAt(b.files, MANIFEST_FILE));
    assert x.files == y.files && x.environment == y.environment && x.features == y.features;
    FileEntriesDetermine(a.files, Tracked(a.files, a.classesDir, declared.files),
                         b.files, Tracked(b.files, b.classesDir, declared.files));
    EnvironmentEntriesDetermine(a.environment, b.environment, declared.env);
    SortedStringsInjective(a.environment.features, b.environment.features);
    var o, p := Observe(a, script, declared), Observe(b, script, declared);
    assert o.files == p.files && o.values == p.values;
  }

  lemma SameTracked(a: Setting, b: Setting, scope: Scope, script: FileKey, declared: DeclaredInputs)
    requires script in a.files && script in b.files
    requires InputsAt(a, scope, script, declared) == InputsAt(b, scope, script, declared)
    ensures Tracked(a.files, a.classesDir, declared.files) == Tracked(b.files, b.classesDir, declared.files)
  {
    FileEntriesDetermine(a.files, Tracked(a.files, a.classesDir, declared.files),
                         b.files, Tracked(b.files, b.classesDir, declared.files));
  }

  lemma SameFileEntries(f: Tree, g: Tree, keys: seq<FileKey>)
    requires forall key <- keys :: ContentAt(f, key) == ContentAt(g, key)
    ensures FileEntries(f, keys) == FileEntries(g, keys)
  {
    forall i | 0 <= i < |keys| ensures FileEntries(f, keys)[i] == FileEntries(g, keys)[i] {
      assert keys[i] in keys;
    }
  }

  lemma SameEnvironmentEntries(d: Environment, e: Environment, names: seq<string>)
    requires forall name <- names :: ValueOf(d, name) == ValueOf(e, name)
    ensures EnvironmentEntries(d, names) == EnvironmentEntries(e, names)
  {
    forall i | 0 <= i < |names| ensures EnvironmentEntries(d, names)[i] == EnvironmentEntries(e, names)[i] {
      assert names[i] in names;
    }
  }

  // And the other way round: a fingerprint changes only when an observation does.
  lemma ObservationsDetermine(a: Setting, b: Setting, scope: Scope, script: FileKey, declared: DeclaredInputs)
    requires script in a.files && script in b.files
    requires Observe(a, script, declared) == Observe(b, script, declared)
    ensures InputsAt(a, scope, script, declared) == InputsAt(b, scope, script, declared)
  {
    var o, p := Observe(a, script, declared), Observe(b, script, declared);
    var tracked, names := SortedKeys(o.files.Keys), SortedStrings(declared.env);
    assert o.files.Keys == Tracked(a.files, a.classesDir, declared.files);
    assert p.files.Keys == Tracked(b.files, b.classesDir, declared.files);
    forall key | key in tracked ensures ContentAt(a.files, key) == ContentAt(b.files, key) {
      assert o.files[key] == p.files[key];
    }
    SameFileEntries(a.files, b.files, tracked);
    forall name | name in names ensures ValueOf(a.environment, name) == ValueOf(b.environment, name) {
      assert o.values[name] == p.values[name];
    }
    SameEnvironmentEntries(a.environment, b.environment, names);
  }

  // ---- What a fingerprint is of, said without it ----

  // Below the managed root, or below the classes directory if that is a path.
  ghost predicate Unseen(classesDir: string, key: FileKey) {
    ["target", "jals"] <= key || exists dir: Path :: ParsePath(classesDir) == Some(dir) && dir <= key
  }

  ghost function SeenAt(at: Setting, key: FileKey): Option<Bytes> {
    if Unseen(at.classesDir, key) then None else ContentAt(at.files, key)
  }

  lemma DerivedIsUnseen(key: FileKey, classesDir: string)
    ensures Derived(key, classesDir) <==> Unseen(classesDir, key)
  {
    if Derived(key, classesDir) && !(MANAGED_ROOT <= key) {
      assert ParsePath(classesDir) == Some(ParsePath(classesDir).value);
    }
  }

  // Without declared inputs, exactly the files that are not unseen are tracked.
  lemma TrackedUnless(at: Setting, key: FileKey)
    ensures key in Tracked(at.files, at.classesDir, {}) <==> key in at.files && !Unseen(at.classesDir, key)
  {
    DerivedIsUnseen(key, at.classesDir);
  }

  lemma TrackedContents(a: Setting, b: Setting)
    ensures (map key <- Tracked(a.files, a.classesDir, {}) :: ContentAt(a.files, key))
         == (map key <- Tracked(b.files, b.classesDir, {}) :: ContentAt(b.files, key))
       <==> forall key :: SeenAt(a, key) == SeenAt(b, key)
  {
    var x := map key <- Tracked(a.files, a.classesDir, {}) :: ContentAt(a.files, key);
    var y := map key <- Tracked(b.files, b.classesDir, {}) :: ContentAt(b.files, key);
    forall key
      ensures SeenAt(a, key) == if key in x then x[key] else None
      ensures SeenAt(b, key) == if key in y then y[key] else None
    {
      TrackedUnless(a, key);
      TrackedUnless(b, key);
    }
    if forall key :: SeenAt(a, key) == SeenAt(b, key) {
      forall key ensures key in x <==> key in y {
        assert SeenAt(a, key) == SeenAt(b, key);
        TrackedUnless(a, key);
        TrackedUnless(b, key);
      }
      forall key | key in x ensures x[key] == y[key] {
        assert SeenAt(a, key) == SeenAt(b, key);
      }
      assert x == y;
    }
  }

  // The files a fingerprint depends on: the declared ones, or without any all that are not unseen.
  ghost predicate SameFiles(a: Setting, b: Setting, declared: set<FileKey>) {
    if declared == {} then forall key :: SeenAt(a, key) == SeenAt(b, key)
    else forall key <- declared :: ContentAt(a.files, key) == ContentAt(b.files, key)
  }

  ghost predicate SameValues(a: Environment, b: Environment, names: set<string>) {
    forall name <- names ::
      && (name in a.values <==> name in b.values)
      && (name in a.values ==> a.values[name] == b.values[name])
  }

  lemma SameFilesObserved(a: Setting, b: Setting, script: FileKey, declared: DeclaredInputs)
    requires script in a.files && script in b.files
    ensures Observe(a, script, declared).files == Observe(b, script, declared).files <==>
      SameFiles(a, b, declared.files)
  {
    var x, y := Observe(a, script, declared).files, Observe(b, script, declared).files;
    if declared.files == {} {
      TrackedContents(a, b);
    } else {
      assert x.Keys == declared.files == y.Keys;
      if x == y {
        forall key | key in declared.files ensures ContentAt(a.files, key) == ContentAt(b.files, key) {
          assert x[key] == y[key];
        }
      }
    }
  }

  lemma SameValuesObserved(a: Setting, b: Setting, script: FileKey, declared: DeclaredInputs)
    requires script in a.files && script in b.files
    ensures Observe(a, script, declared).values == Observe(b, script, declared).values
       <==> SameValues(a.environment, b.environment, declared.env)
  {
    var x, y := Observe(a, script, declared).values, Observe(b, script, declared).values;
    assert x.Keys == declared.env == y.Keys;
    if x == y {
      forall name | name in declared.env
        ensures ValueOf(a.environment, name) == ValueOf(b.environment, name)
      {
        assert x[name] == y[name];
      }
    }
    if SameValues(a.environment, b.environment, declared.env) {
      forall name | name in declared.env ensures x[name] == y[name] {
      }
    }
  }

  // Two fingerprints of one script agree exactly when the script, the manifest, the limits, the
  // features, the declared values, and the files that count are the same.
  lemma FingerprintExactly(a: Setting, b: Setting, scope: Scope, script: FileKey, declared: DeclaredInputs)
    requires script in a.files && script in b.files
    ensures MANIFEST_FILE == ["jals.toml"]
    ensures InputsAt(a, scope, script, declared) == InputsAt(b, scope, script, declared) <==>
      && a.files[script] == b.files[script]
      && ContentAt(a.files, MANIFEST_FILE) == ContentAt(b.files, MANIFEST_FILE)
      && a.limits == b.limits
      && a.environment.features == b.environment.features
      && SameValues(a.environment, b.environment, declared.env)
      && SameFiles(a, b, declared.files)
  {
    if InputsAt(a, scope, script, declared) == InputsAt(b, scope, script, declared) {
      FingerprintCovers(a, b, scope, script, declared);
    }
    if Observe(a, script, declared) == Observe(b, script, declared) {
      ObservationsDetermine(a, b, scope, script, declared);
    }
    SameFilesObserved(a, b, script, declared);
    SameValuesObserved(a, b, script, declared);
  }

  // Whatever changes below the classes directory leaves the fingerprint of a script that declares no
  // inputs as it was.
  lemma ClassesUnseen(at: Setting, files: Tree, scope: Scope, script: FileKey, env: set<string>, dir: Path)
    requires script in at.files && ParsePath(at.classesDir) == Some(dir)
    requires !(dir <= script) && !(dir <= MANIFEST_FILE)
    requires forall key: FileKey :: !(dir <= key) ==> ContentAt(files, key) == ContentAt(at.files, key)
    ensures script in files
    ensures var declared := DeclaredInputs({}, env);
      InputsAt(at.(files := files), scope, script, declared) == InputsAt(at, scope, script, declared)
  {
    var now, declared := at.(files := files), DeclaredInputs({}, env);
    assert ContentAt(files, script) == ContentAt(at.files, script);
    forall key ensures SeenAt(now, key) == SeenAt(at, key) {
      if !Unseen(at.classesDir, key) {
        assert !(dir <= key);
      }
    }
    FingerprintExactly(now, at, scope, script, declared);
  }

  // ---- What is not tracked ----

  const DEPENDENCY_JAR: FileKey := DependencyJar()

  function DependencyJar(): FileKey {
    DependencyNames();
    ["target", "jals", "deps", "dep.jar"]
  }

  // Replacing an acquired dependency, which lies outside the artifact root, leaves the fingerprint of
  // a script that declares no inputs as it was.
  lemma DependencyUnseen(at: Setting, scope: Scope, script: FileKey, env: set<string>, before: Bytes, after: Bytes)
    requires script in at.files && script != DEPENDENCY_JAR
    ensures DEPENDENCY_JAR == ["target", "jals", "deps", "dep.jar"] && !(ARTIFACT_ROOT <= DEPENDENCY_JAR)
    ensures var declared := DeclaredInputs({}, env);
      InputsAt(at.(files := at.files[DEPENDENCY_JAR := before]), scope, script, declared)
        == InputsAt(at.(files := at.files[DEPENDENCY_JAR := after]), scope, script, declared)
  {
    var a, b := at.(files := at.files[DEPENDENCY_JAR := before]), at.(files := at.files[DEPENDENCY_JAR := after]);
    assert ARTIFACT_ROOT[2] != DEPENDENCY_JAR[2];
    assert DEPENDENCY_JAR[..2] == MANAGED_ROOT;
    ManifestApart();
    assert Tracked(a.files, a.classesDir, {}) == Tracked(b.files, b.classesDir, {});
    var declared := DeclaredInputs({}, env);
    assert Observe(a, script, declared).files == Observe(b, script, declared).files;
    ObservationsDetermine(a, b, scope, script, declared);
  }

  const CLASS_FILE: FileKey := ClassFile()

  function ClassFile(): FileKey {
    ClassNames();
    ["target", "classes", "A.class"]
  }

  lemma FileUnseen(at: Setting, scope: Scope, script: FileKey, env: set<string>, dir: Path, key: FileKey, bytes: Bytes)
    requires script in at.files && ParsePath(at.classesDir) == Some(dir) && dir <= key
    requires !(dir <= script) && !(dir <= MANIFEST_FILE)
    ensures var declared := DeclaredInputs({}, env);
      InputsAt(at.(files := at.files[key := bytes]), scope, script, declared) == InputsAt(at, scope, script, declared)
  {
    ClassesUnseen(at, at.files[key := bytes], scope, script, env, dir);
  }

  lemma ClassFilePlace()
    ensures ValidPath(["target", "classes"]) && ParsePath("target/classes") == Some(["target", "classes"])
    ensures ["target", "classes"] <= CLASS_FILE && !(["target", "classes"] <= MANIFEST_FILE)
  {
    ClassesDirectory();
    assert CLASS_FILE[..2] == ["target", "classes"];
    assert |MANIFEST_FILE| == 1;
  }

  // So does compiling: with `target/classes` as classes directory, `target/classes/A.class` may come,
  // go, or change.
  lemma ClassFileUnseen(at: Setting, scope: Scope, script: FileKey, env: set<string>, bytes: Bytes)
    requires script in at.files && at.classesDir == "target/classes" && !(["target", "classes"] <= script)
    ensures CLASS_FILE == ["target", "classes", "A.class"]
    ensures var declared := DeclaredInputs({}, env);
      InputsAt(at.(files := at.files[CLASS_FILE := bytes]), scope, script, declared)
        == InputsAt(at, scope, script, declared)
  {
    ClassFilePlace();
    FileUnseen(at, scope, script, env, ["target", "classes"], CLASS_FILE, bytes);
  }

  lemma ManifestApart()
    ensures MANIFEST_FILE != DEPENDENCY_JAR
  {
    assert |MANIFEST_FILE| != |DEPENDENCY_JAR|;
  }
}
