// A cache hit stands for an evaluation: what makes a record genuine, and why restoring one answers
// exactly as evaluating would.
module Refinement {
  import opened Text
  import opened Paths
  import opened Identity
  import opened Cache
  import opened Model
  import opened Fingerprint
  import opened StateCodec
  import opened Preparation

  function Evaluate(p: Platform, at: Setting, script: FileKey): Result<Pending, EngineError> {
    p.evaluate(at.files, script, at.environment, at.limits)
  }

  // `classes-dir` comes from the project's own manifest.
  predicate OwnManifest(p: Platform, at: Setting) {
    at.classesDir == p.manifestOf(ContentAt(at.files, MANIFEST_FILE)).classesDir
  }

  // The engine only looks at what a fingerprint covers: two settings that agree on everything the
  // first run's declarations track give the same result.
  ghost predicate Honest(p: Platform) {
    forall a, b, script :: Agrees(p, a, b, script)
  }

  ghost predicate Agrees(p: Platform, a: Setting, b: Setting, script: FileKey) {
    && script in a.files && script in b.files
    && OwnManifest(p, a) && OwnManifest(p, b)
    && Evaluate(p, a, script).Ok?
    && Observe(a, script, DeclaredBy(Evaluate(p, a, script).value.directives))
       == Observe(b, script, DeclaredBy(Evaluate(p, a, script).value.directives))
    ==> Evaluate(p, b, script) == Evaluate(p, a, script)
  }

  // ---- Genuine records ----

  ghost predicate Evaluates(p: Platform, at: Setting, script: FileKey, pending: Pending) {
    && script in at.files
    && OwnManifest(p, at)
    && Evaluate(p, at, script) == Ok(pending)
    && !ReportsError(pending)
  }

  ghost predicate GenuineFor(p: Platform, bytes: Bytes, at: Setting, scope: Scope, script: FileKey, pending: Pending) {
    Evaluates(p, at, script, pending) && bytes == StateBytes(p, at, scope, script, pending)
  }

  // The bytes are the record of some evaluation.
  ghost predicate Genuine(p: Platform, bytes: Bytes) {
    exists at, scope, script, pending :: GenuineFor(p, bytes, at, scope, script, pending)
  }

  // Every indexed state is genuine. Nothing is asked of the stored artifacts: a digest already says
  // what its bytes are, so lost or damaged entries can only be misses.
  ghost predicate GenuineIndex(p: Platform, cache: Contents) {
    forall key <- cache.index | key.0.State? :: Genuine(p, cache.index[key].content)
  }

  lemma ScopeTextInjective(a: Scope, b: Scope)
    requires ScopeText(a) == ScopeText(b)
    ensures a == b
  {
  }

  // A genuine record that decodes for a project was written for that project.
  lemma GenuineDecodes(p: Platform, bytes: Bytes, at: Setting, scope: Scope, script: FileKey, pending: Pending,
                       asked: Scope, path: FileKey)
    requires p.Faithful()
    requires GenuineFor(p, bytes, at, scope, script, pending)
    requires DecodeState(p, bytes, asked, path).Some?
    ensures asked == scope && path == script && Recordable(p, at, pending)
    ensures DecodeState(p, bytes, asked, path).value ==
      Decoded(Of(p.encodeInputs(InputsAt(at, scope, script, DeclaredBy(pending.directives)))),
              OutputDigests(pending.generated), pending.directives)
  {
    var inputs := InputsAt(at, scope, script, DeclaredBy(pending.directives));
    var wire := WireOf(scope, script, pending, inputs, Of(p.encodeInputs(inputs)));
    assert p.decodeState(p.encodeState(wire)) == Some(wire);
    assert ValidHeader(p, wire, asked, path);
    ScopeTextInjective(asked, scope);
    RenderInjective(path, script);
    RecordReadsBack(p, at, scope, script, pending);
  }

  lemma DigestListed(generated: Tree, i: nat)
    requires i < |OutputDigests(generated)|
    ensures var output := OutputDigests(generated)[i];
      output.0 in generated && output.1 == Of(generated[output.0])
  {
    assert SortedKeys(generated.Keys)[i] in generated;
  }

  lemma KeyListed(generated: Tree, key: FileKey) returns (i: nat)
    requires key in generated
    ensures i < |OutputDigests(generated)| && OutputDigests(generated)[i].0 == key
  {
    var keys := SortedKeys(generated.Keys);
    assert key in keys;
    i :| 0 <= i < |keys| && keys[i] == key;
  }

  lemma OutputDigestsCover(generated: Tree, found: Tree)
    requires forall key <- found :: RecordedAs(OutputDigests(generated), key, found[key])
    requires forall i :: 0 <= i < |OutputDigests(generated)| ==> OutputDigests(generated)[i].0 in found
    ensures found == generated
  {
    var outputs := OutputDigests(generated);
    forall key | key in generated ensures key in found {
      var i := KeyListed(generated, key);
      assert outputs[i].0 in found;
    }
    forall key | key in found ensures key in generated && found[key] == generated[key] {
      var i :| 0 <= i < |outputs| && outputs[i] == (key, Of(found[key]));
      DigestListed(generated, i);
    }
    assert found.Keys == generated.Keys;
  }

  // The index entry a state was read through.
  lemma StateSource(p: Platform, cache: Contents, scope: Scope, script: FileKey, limits: Limits)
    requires GenuineIndex(p, cache)
    requires ReadState(p, cache, scope, script, limits).Some?
    ensures (State, StateProvenance(scope, script)) in cache.index
    ensures var bytes := cache.index[(State, StateProvenance(scope, script))].content;
      Genuine(p, bytes) && DecodeState(p, bytes, scope, script) == ReadState(p, cache, scope, script, limits)
  {
  }

  // A hit answers with exactly the result evaluation gives now.
  lemma HitIsEvaluation(p: Platform, cache: Contents, at: Setting, scope: Scope, script: FileKey)
    requires p.Faithful() && Honest(p) && GenuineIndex(p, cache)
    requires script in at.files && OwnManifest(p, at)
    requires LoadCached(p, cache, at, scope, script).Some?
    requires LoadCached(p, cache, at, scope, script).value.fingerprintMatches
    requires LoadCached(p, cache, at, scope, script).value.outputsComplete
    ensures var cached := LoadCached(p, cache, at, scope, script).value;
      Evaluates(p, at, script, Pending(cached.generated, cached.state.directives))
  {
    var cached := LoadCached(p, cache, at, scope, script).value;
    StateSource(p, cache, scope, script, at.limits);
    var bytes := cache.index[(State, StateProvenance(scope, script))].content;
    var past, s, k, pending :| GenuineFor(p, bytes, past, s, k, pending);
    GenuineDecodes(p, bytes, past, s, k, pending, scope, script);
    var declared := DeclaredBy(pending.directives);
    assert p.encodeInputs(InputsAt(at, scope, script, declared))
      == p.encodeInputs(InputsAt(past, scope, script, declared));
    FingerprintCovers(past, at, scope, script, declared);
    assert Agrees(p, past, at, script);
    CompleteRecovery(p, cache, at, scope, script);
    OutputDigestsCover(pending.generated, cached.generated);
  }

  // ---- The same answer with and without a cache ----

  function AnswerOf(r: Result<Prepared, Error>): Result<Pending, Error> {
    match r
    case Err(error) => Err(error)
    case Ok(prepared) => Ok(prepared.pending)
  }

  predicate Hits(p: Platform, cache: Contents, at: Setting, scope: Scope, script: FileKey) {
    var loaded := LoadCached(p, cache, at, scope, script);
    loaded.Some? && loaded.value.fingerprintMatches && loaded.value.outputsComplete
  }

  lemma HitAnswer(p: Platform, cache: Contents, at: Setting, scope: Scope, script: FileKey)
    requires Hits(p, cache, at, scope, script)
    ensures var cached := LoadCached(p, cache, at, scope, script).value;
      AnswerOf(PrepareScript(p, cache, at, scope, script)) == Ok(Pending(cached.generated, cached.state.directives))
  {
  }

  lemma MissAnswer(p: Platform, cache: Contents, at: Setting, scope: Scope, script: FileKey)
    requires !Hits(p, cache, at, scope, script)
    ensures AnswerOf(PrepareScript(p, cache, at, scope, script)) == Direct(p, at, script)
  {
  }

  lemma MissShape(p: Platform, cache: Contents, at: Setting, scope: Scope, script: FileKey)
    requires !Hits(p, cache, at, scope, script)
    requires PrepareScript(p, cache, at, scope, script).Ok?
    ensures var prepared := PrepareScript(p, cache, at, scope, script).value;
      && prepared.scope == scope && prepared.script == script
      && Direct(p, at, script) == Ok(prepared.pending)
      && prepared.cacheState == CacheState(p, at, scope, script, prepared.pending)
      && prepared.recovered ==
           var loaded := LoadCached(p, cache, at, scope, script);
           if loaded.Some? then loaded.value.generated else map[]
  {
  }

  lemma EvaluatedAnswer(p: Platform, at: Setting, script: FileKey, pending: Pending)
    requires Evaluates(p, at, script, pending)
    ensures Direct(p, at, script) == Ok(pending)
  {
  }

  lemma ScriptRefines(p: Platform, cache: Contents, at: Setting, scope: Scope, script: FileKey)
    requires p.Faithful() && Honest(p) && GenuineIndex(p, cache)
    requires script in at.files && OwnManifest(p, at)
    ensures AnswerOf(PrepareScript(p, cache, at, scope, script)) == Direct(p, at, script)
  {
    if Hits(p, cache, at, scope, script) {
      var cached := LoadCached(p, cache, at, scope, script).value;
      HitIsEvaluation(p, cache, at, scope, script);
      HitAnswer(p, cache, at, scope, script);
      EvaluatedAnswer(p, at, script, Pending(cached.generated, cached.state.directives));
    } else {
      MissAnswer(p, cache, at, scope, script);
    }
  }

  // A record that still matches was written over the files tracked now, and in an order its reader
  // accepted.
  lemma HitInOrder(p: Platform, cache: Contents, at: Setting, scope: Scope, script: FileKey)
    requires p.Faithful() && GenuineIndex(p, cache)
    requires script in at.files && Hits(p, cache, at, scope, script)
    ensures var rerunFiles := LoadCached(p, cache, at, scope, script).value.state.directives.rerunFiles;
      RenderedInOrder(Tracked(at.files, at.classesDir, rerunFiles))
  {
    StateSource(p, cache, scope, script, at.limits);
    var bytes := cache.index[(State, StateProvenance(scope, script))].content;
    var past, s, k, pending :| GenuineFor(p, bytes, past, s, k, pending);
    GenuineDecodes(p, bytes, past, s, k, pending, scope, script);
    var declared := DeclaredBy(pending.directives);
    assert p.encodeInputs(InputsAt(at, scope, script, declared))
      == p.encodeInputs(InputsAt(past, scope, script, declared));
    SameTracked(past, at, scope, script, declared);
  }

  // A project whose evaluation tracks two inverted files is never served from a cache.
  lemma InvertedMisses(p: Platform, cache: Contents, at: Setting, scope: Scope, script: FileKey, pending: Pending,
                       a: FileKey, b: FileKey)
    requires p.Faithful() && Honest(p) && GenuineIndex(p, cache)
    requires Evaluates(p, at, script, pending)
    requires var tracked := Tracked(at.files, at.classesDir, pending.directives.rerunFiles);
      a in tracked && b in tracked && Inverted(a, b)
    ensures !Hits(p, cache, at, scope, script)
  {
    if Hits(p, cache, at, scope, script) {
      HitIsEvaluation(p, cache, at, scope, script);
      HitInOrder(p, cache, at, scope, script);
    }
    RenderedInOrderExactly(Tracked(at.files, at.classesDir, pending.directives.rerunFiles));
  }

  // The answer of a preparation: the pending result, or the error.
  function Answer(r: Result<Option<Prepared>, Error>): Result<Option<Pending>, Error> {
    match r
    case Err(error) => Err(error)
    case Ok(None) => Ok(None)
    case Ok(Some(prepared)) => Ok(Some(prepared.pending))
  }

  // What preparing would answer by always evaluating.
  function Uncached(p: Platform, files: Tree, manifest: Manifest, environment: Environment, limits: Limits):
    Result<Option<Pending>, Error>
  {
    if manifest.script.None? then Ok(None)
    else
      var at := SettingOf(files, manifest, environment, limits);
      match CheckScript(p, at, manifest.script.value)
      case Err(error) => Err(error)
      case Ok(script) =>
        match Direct(p, at, script)
        case Err(error) => Err(error)
        case Ok(pending) => Ok(Some(pending))
  }

  // Whatever the cache holds, preparing answers exactly as evaluating does.
  lemma PreparationRefines(p: Platform, cache: Contents, files: Tree, scope: Scope, environment: Environment,
                           limits: Limits)
    requires p.Faithful() && Honest(p) && GenuineIndex(p, cache)
    ensures var manifest := p.manifestOf(ContentAt(files, MANIFEST_FILE));
      Answer(Prepare(p, cache, files, scope, manifest, environment, limits))
      == Uncached(p, files, manifest, environment, limits)
  {
    var manifest := p.manifestOf(ContentAt(files, MANIFEST_FILE));
    var at := SettingOf(files, manifest, environment, limits);
    if manifest.script.Some? {
      var checked := CheckScript(p, at, manifest.script.value);
      if checked.Ok? {
        ScriptRefines(p, cache, at, scope, checked.value);
      }
    }
  }
}
