// A build does not invalidate itself: when a second run is a cache hit, and that it then changes
// nothing.
module Rerun {
  import opened Text
  import opened Paths
  import opened Identity
  import opened Cache
  import opened Model
  import opened Fingerprint
  import opened StateCodec
  import opened Preparation
  import opened Publication
  import opened Refinement
  import opened Maps

  // ---- What a successful persist leaves in the cache ----

  lemma {:induction false} RunRecords(cache: Contents, ops: seq<Op>, budget: nat, key: CacheKey)
    requires ops != [] && ops[|ops| - 1] == RecordCurrent(key)
    requires Run(cache, ops, budget).1 == None
    ensures (key.namespace, key.provenance) in Run(cache, ops, budget).0.index
    ensures Run(cache, ops, budget).0.index[(key.namespace, key.provenance)] == key.content
    decreases |ops|
  {
    var next := Perform(cache, ops[0]).value;
    if |ops| == 1 {
      assert Run(next, ops[1..], budget - 1) == (next, None);
    } else {
      RunRecords(next, ops[1..], budget - 1, key);
    }
  }

  // The cache holds an output under its own key.
  predicate HoldsOutput(cache: Contents, scope: Scope, script: FileKey, key: FileKey, bytes: Bytes) {
    var at := CacheKey(Output, OutputProvenance(scope, script, key), Of(bytes));
    at in cache.entries && cache.entries[at] == bytes
  }

  ghost predicate HoldsOutputs(cache: Contents, scope: Scope, script: FileKey, generated: Tree) {
    forall key {:trigger HoldsOutput(cache, scope, script, key, generated[key])} | key in generated ::
      HoldsOutput(cache, scope, script, key, generated[key])
  }

  lemma PersistHoldsOne(cache: Contents, prepared: Prepared, budget: nat, key: FileKey)
    requires prepared.cacheState.Ok? && prepared.cacheState.value.Some?
    requires Persist(cache, prepared, budget).1 == None && key in prepared.pending.generated
    ensures HoldsOutput(Persist(cache, prepared, budget).0, prepared.scope, prepared.script, key,
                        prepared.pending.generated[key])
  {
    var keys := SortedKeys(prepared.pending.generated.Keys);
    assert key in keys;
    var i :| 0 <= i < |keys| && keys[i] == key;
    var ops := PersistOps(prepared);
    assert ops[i] == OutputPublication(prepared, key);
    RunPublishes(cache, ops, budget, i);
  }

  lemma RecordPublished(cache: Contents, publications: seq<Op>, record: Record, budget: nat)
    requires var ops := publications + [PublishArtifact(record.key, record.bytes), RecordCurrent(record.key)];
      Run(cache, ops, budget).1 == None
    ensures var after :=
        Run(cache, publications + [PublishArtifact(record.key, record.bytes), RecordCurrent(record.key)], budget).0;
      && record.key in after.entries && after.entries[record.key] == record.bytes
      && (record.key.namespace, record.key.provenance) in after.index
      && after.index[(record.key.namespace, record.key.provenance)] == record.key.content
  {
    var ops := publications + [PublishArtifact(record.key, record.bytes), RecordCurrent(record.key)];
    assert ops[|publications|] == PublishArtifact(record.key, record.bytes);
    RunPublishes(cache, ops, budget, |publications|);
    RunRecords(cache, ops, budget, record.key);
  }

  lemma PersistHolds(cache: Contents, prepared: Prepared, budget: nat)
    requires prepared.cacheState.Ok? && prepared.cacheState.value.Some?
    requires Persist(cache, prepared, budget).1 == None
    ensures var after := Persist(cache, prepared, budget).0;
      var record := prepared.cacheState.value.value;
      && HoldsOutputs(after, prepared.scope, prepared.script, prepared.pending.generated)
      && record.key in after.entries && after.entries[record.key] == record.bytes
      && (record.key.namespace, record.key.provenance) in after.index
      && after.index[(record.key.namespace, record.key.provenance)] == record.key.content
  {
    var record := prepared.cacheState.value.value;
    var generated := prepared.pending.generated;
    var publications := OutputPublications(prepared, SortedKeys(generated.Keys));
    var after := Persist(cache, prepared, budget).0;
    forall key | key in generated
      ensures HoldsOutput(after, prepared.scope, prepared.script, key, generated[key])
    {
      PersistHoldsOne(cache, prepared, budget, key);
    }
    RecordPublished(cache, publications, record, budget);
  }

  // ---- Which results fit ----

  // The recorded outputs are within the file, count, and total limits.
  predicate OutputsFit(generated: Tree, limits: Limits) {
    && (forall key <- generated :: |generated[key]| <= limits.maxOutputFileSize)
    && TotalSize(generated) <= limits.maxTotalOutputSize
  }

  lemma RestrictGrows<K, V>(m: map<K, V>, init: seq<K>, key: K)
    requires key in m
    ensures Restrict(m, init + [key]) == Restrict(m, init)[key := m[key]]
  {
  }

  lemma RestrictTotal(files: Tree, init: seq<FileKey>, key: FileKey)
    requires key in files && key !in init
    ensures TotalSize(Restrict(files, init + [key])) == TotalSize(Restrict(files, init)) + |files[key]|
  {
    RestrictGrows(files, init, key);
    TotalSizeAdd(Restrict(files, init), key, files[key]);
  }

  lemma {:induction false} TotalSizeRestrict(files: Tree, keys: seq<FileKey>, n: nat)
    requires n <= |keys|
    requires forall key :: key in keys ==> key in files
    requires forall i, j :: 0 <= i < j < |keys| ==> keys[i] != keys[j]
    ensures TotalSize(Restrict(files, keys[..n])) <= TotalSize(Restrict(files, keys))
    decreases |keys| - n
  {
    if n == |keys| {
      assert keys[..n] == keys;
    } else {
      assert keys[..n + 1] == keys[..n] + [keys[n]];
      RestrictTotal(files, keys[..n], keys[n]);
      TotalSizeRestrict(files, keys, n + 1);
    }
  }

  lemma PrefixTotal(generated: Tree, keys: seq<FileKey>, n: nat)
    requires n < |keys| && forall key :: key in generated <==> key in keys
    requires forall i, j :: 0 <= i < j < |keys| ==> keys[i] != keys[j]
    ensures Restrict(generated, keys[..n + 1]) == Restrict(generated, keys[..n])[keys[n] := generated[keys[n]]]
    ensures TotalSize(Restrict(generated, keys[..n + 1]))
         == TotalSize(Restrict(generated, keys[..n])) + |generated[keys[n]]| <= TotalSize(generated)
  {
    var init, key := keys[..n], keys[n];
    assert keys[..n + 1] == init + [key] && key !in init;
    RestrictGrows(generated, init, key);
    TotalSizeAdd(Restrict(generated, init), key, generated[key]);
    TotalSizeRestrict(generated, keys, n + 1);
    RestrictAll(generated, keys);
  }

  predicate ListsOutputs(outputs: seq<(FileKey, Digest)>, generated: Tree, keys: seq<FileKey>) {
    && |outputs| == |keys|
    && (forall i :: 0 <= i < |keys| ==> keys[i] in generated && outputs[i] == (keys[i], Of(generated[keys[i]])))
    && (forall key <- generated :: key in keys)
    && (forall i, j :: 0 <= i < j < |keys| ==> keys[i] != keys[j])
  }

  lemma {:induction false} RecoversPrefix(cache: Contents, scope: Scope, script: FileKey, limits: Limits,
                                          generated: Tree, outputs: seq<(FileKey, Digest)>, keys: seq<FileKey>, n: nat)
    requires HoldsOutputs(cache, scope, script, generated) && OutputsFit(generated, limits)
    requires ListsOutputs(outputs, generated, keys) && n <= |keys|
    ensures Recover(cache, scope, script, limits, true, outputs[..n])
         == Recovery(Restrict(generated, keys[..n]), TotalSize(Restrict(generated, keys[..n])), true)
    decreases n
  {
    if n == 0 {
      assert outputs[..0] == [] && keys[..0] == [];
      RestrictEmpty(generated);
    } else {
      var k := n - 1;
      var kept := Restrict(generated, keys[..k]);
      var before := Recovery(kept, TotalSize(kept), true);
      var key := keys[k];
      assert Recover(cache, scope, script, limits, true, outputs[..k]) == before by {
        RecoversPrefix(cache, scope, script, limits, generated, outputs, keys, k);
      }
      PrefixTotal(generated, keys, k);
      assert HoldsOutput(cache, scope, script, key, generated[key]);
      RecoverNext(cache, scope, script, limits, outputs, k, before, key, generated[key]);
    }
  }

  lemma RestrictEmpty<K, V>(m: map<K, V>)
    ensures Restrict(m, []) == map[]
  {
  }

  lemma RecoverFound(cache: Contents, scope: Scope, script: FileKey, limits: Limits, r: Recovery, key: FileKey,
                     bytes: Bytes)
    requires HoldsOutput(cache, scope, script, key, bytes)
    requires |bytes| <= limits.maxOutputFileSize && r.total + |bytes| <= limits.maxTotalOutputSize
    ensures RecoverOne(cache, scope, script, limits, r, (key, Of(bytes)))
         == Recovery(r.generated[key := bytes], r.total + |bytes|, r.complete)
  {
    var at := OutputKeyFor(scope, script, (key, Of(bytes)));
    assert LookupBounded(cache, at, limits.maxOutputFileSize) == Ok(Some(bytes));
  }

  lemma RecoverNext(cache: Contents, scope: Scope, script: FileKey, limits: Limits, outputs: seq<(FileKey, Digest)>,
                    n: nat, before: Recovery, key: FileKey, bytes: Bytes)
    requires n < |outputs| && outputs[n] == (key, Of(bytes))
    requires Recover(cache, scope, script, limits, true, outputs[..n]) == before
    requires HoldsOutput(cache, scope, script, key, bytes)
    requires |bytes| <= limits.maxOutputFileSize && before.total + |bytes| <= limits.maxTotalOutputSize
    ensures Recover(cache, scope, script, limits, true, outputs[..n + 1])
         == Recovery(before.generated[key := bytes], before.total + |bytes|, before.complete)
  {
    RecoverExtend(cache, scope, script, limits, true, outputs, n);
    RecoverFound(cache, scope, script, limits, before, key, bytes);
  }

  lemma DigestsListOutputs(generated: Tree)
    ensures ListsOutputs(OutputDigests(generated), generated, SortedKeys(generated.Keys))
  {
    SortedKeysDistinct(generated.Keys);
  }

  // Recovery finds everything exactly when everything fits.
  lemma RecoversExactly(cache: Contents, scope: Scope, script: FileKey, limits: Limits, generated: Tree)
    requires HoldsOutputs(cache, scope, script, generated)
    requires DistinctKeys(OutputDigests(generated))
    ensures Recover(cache, scope, script, limits, true, OutputDigests(generated)).complete <==>
      OutputsFit(generated, limits)
    ensures OutputsFit(generated, limits) ==>
      Recover(cache, scope, script, limits, true, OutputDigests(generated)).generated == generated
  {
    var outputs := OutputDigests(generated);
    if OutputsFit(generated, limits) {
      FittingRecovered(cache, scope, script, limits, generated);
    }
    RecoverBounded(cache, scope, script, limits, true, outputs);
    if Recover(cache, scope, script, limits, true, outputs).complete {
      OutputDigestsCover(generated, Recover(cache, scope, script, limits, true, outputs).generated);
    }
  }

  lemma FittingRecovered(cache: Contents, scope: Scope, script: FileKey, limits: Limits, generated: Tree)
    requires HoldsOutputs(cache, scope, script, generated) && OutputsFit(generated, limits)
    ensures Recover(cache, scope, script, limits, true, OutputDigests(generated))
      == Recovery(generated, TotalSize(generated), true)
  {
    var outputs, keys := OutputDigests(generated), SortedKeys(generated.Keys);
    DigestsListOutputs(generated);
    RecoversPrefix(cache, scope, script, limits, generated, outputs, keys, |keys|);
    TakeAll(outputs);
    TakeAll(keys);
    RestrictAll(generated, keys);
  }

  lemma TakeAll<T>(s: seq<T>)
    ensures s[..|s|] == s
  {
  }

  lemma {:induction false} IncompleteStays(cache: Contents, scope: Scope, script: FileKey, limits: Limits,
                                           outputs: seq<(FileKey, Digest)>)
    ensures !Recover(cache, scope, script, limits, false, outputs).complete
    decreases |outputs|
  {
    if outputs != [] {
      IncompleteStays(cache, scope, script, limits, outputs[..|outputs| - 1]);
    }
  }

  // ---- The second run ----

  // What the record of a result reads back as.
  function ReadBack(p: Platform, at: Setting, scope: Scope, script: FileKey, pending: Pending): Decoded
    requires script in at.files
  {
    Decoded(Of(p.encodeInputs(InputsAt(at, scope, script, DeclaredBy(pending.directives)))),
            OutputDigests(pending.generated), pending.directives)
  }

  // A result a later run can restore: its record is accepted and everything is within the limits.
  ghost predicate Restorable(p: Platform, at: Setting, scope: Scope, script: FileKey, pending: Pending)
    requires script in at.files
  {
    && Recordable(p, at, pending)
    && WithinLimits(p, ReadBack(p, at, scope, script, pending), at.limits)
    && OutputsFit(pending.generated, at.limits)
  }

  ghost predicate JustPersisted(p: Platform, cache: Contents, at: Setting, scope: Scope, script: FileKey,
                                pending: Pending)
  {
    && script in at.files
    && HoldsOutputs(cache, scope, script, pending.generated)
    && (State, StateProvenance(scope, script)) in cache.index
    && var bytes := StateBytes(p, at, scope, script, pending);
       var key := CacheKey(State, StateProvenance(scope, script), Of(bytes));
       && cache.index[(State, StateProvenance(scope, script))] == Of(bytes)
       && key in cache.entries && cache.entries[key] == bytes
       && |bytes| <= at.limits.maxCacheStateSize
  }

  lemma PersistedState(p: Platform, cache: Contents, at: Setting, now: Setting, scope: Scope, script: FileKey,
                       pending: Pending)
    requires p.Faithful() && JustPersisted(p, cache, at, scope, script, pending)
    requires now.limits == at.limits
    ensures ReadState(p, cache, scope, script, now.limits) ==
      if Recordable(p, at, pending) then Some(ReadBack(p, at, scope, script, pending)) else None
  {
    RecordReadsBack(p, at, scope, script, pending);
  }

  lemma SameFingerprint(p: Platform, at: Setting, now: Setting, scope: Scope, script: FileKey, pending: Pending)
    requires p.Faithful() && script in at.files && script in now.files
    ensures FingerprintMatches(p, now, scope, script, ReadBack(p, at, scope, script, pending)) <==>
      Observe(now, script, DeclaredBy(pending.directives)) == Observe(at, script, DeclaredBy(pending.directives))
  {
    var declared := DeclaredBy(pending.directives);
    if FingerprintMatches(p, now, scope, script, ReadBack(p, at, scope, script, pending)) {
      assert p.encodeInputs(InputsAt(now, scope, script, declared))
        == p.encodeInputs(InputsAt(at, scope, script, declared));
      FingerprintCovers(now, at, scope, script, declared);
    }
    if Observe(now, script, declared) == Observe(at, script, declared) {
      ObservationsDetermine(now, at, scope, script, declared);
    }
  }

  lemma HitsWhenRead(p: Platform, cache: Contents, now: Setting, scope: Scope, script: FileKey, state: Decoded)
    requires ReadState(p, cache, scope, script, now.limits) == Some(state)
    ensures var r := Recover(cache, scope, script, now.limits, StateWithinLimits(p, state, now.limits), state.outputs);
      && (Hits(p, cache, now, scope, script) <==>
            FingerprintMatches(p, now, scope, script, state) && r.complete && |r.generated| == |state.outputs|)
      && (Hits(p, cache, now, scope, script) ==>
            PrepareScript(p, cache, now, scope, script)
            == Ok(Prepared(scope, script, Pending(r.generated, state.directives), map[], Ok(None))))
  {
  }

  lemma RecoveredExactly(p: Platform, cache: Contents, scope: Scope, script: FileKey, limits: Limits, state: Decoded,
                         generated: Tree)
    requires state.outputs == OutputDigests(generated) && DistinctKeys(state.outputs)
    requires HoldsOutputs(cache, scope, script, generated)
    ensures var r := Recover(cache, scope, script, limits, StateWithinLimits(p, state, limits), state.outputs);
      && (r.complete && |r.generated| == |state.outputs| <==>
            WithinLimits(p, state, limits) && OutputsFit(generated, limits))
      && (r.complete ==> r.generated == generated)
  {
    LimitsExactly(p, state, limits);
    if StateWithinLimits(p, state, limits) {
      RecoversExactly(cache, scope, script, limits, generated);
    } else {
      IncompleteStays(cache, scope, script, limits, state.outputs);
    }
  }

  // After a result is persisted, the next run under the same limits is a hit exactly when the result
  // was restorable and nothing it depends on has changed. It then answers with that result.
  lemma HitsExactly(p: Platform, cache: Contents, at: Setting, now: Setting, scope: Scope, script: FileKey,
                    pending: Pending)
    requires p.Faithful() && JustPersisted(p, cache, at, scope, script, pending)
    requires script in now.files && now.limits == at.limits
    ensures Hits(p, cache, now, scope, script) <==>
      && Restorable(p, at, scope, script, pending)
      && Observe(now, script, DeclaredBy(pending.directives)) == Observe(at, script, DeclaredBy(pending.directives))
    ensures Hits(p, cache, now, scope, script) ==>
      PrepareScript(p, cache, now, scope, script) == Ok(Prepared(scope, script, pending, map[], Ok(None)))
  {
    PersistedState(p, cache, at, now, scope, script, pending);
    if Recordable(p, at, pending) {
      var state := ReadBack(p, at, scope, script, pending);
      SameFingerprint(p, at, now, scope, script, pending);
      StateKeysDistinct(p, cache, scope, script, now.limits);
      HitsWhenRead(p, cache, now, scope, script, state);
      RecoveredExactly(p, cache, scope, script, now.limits, state, pending.generated);
    } else {
      assert LoadCached(p, cache, now, scope, script) == None;
    }
  }

  // ---- A build and the run after it ----

  // A path the fingerprint does not look at: not the script, not the manifest, not a declared input,
  // and, for a script that declares none, inside a derived directory.
  ghost predicate Unobserved(at: Setting, script: FileKey, declared: DeclaredInputs, key: FileKey) {
    && key != script && key != MANIFEST_FILE && key !in declared.files
    && (declared.files == {} ==> Unseen(at.classesDir, key))
  }

  lemma ObservationsSurvive(at: Setting, files: Tree, script: FileKey, declared: DeclaredInputs, changed: set<FileKey>)
    requires script in at.files
    requires forall key :: key in changed ==> Unobserved(at, script, declared, key)
    requires forall key :: key !in changed ==> ContentAt(files, key) == ContentAt(at.files, key)
    ensures script in files && Observe(at.(files := files), script, declared) == Observe(at, script, declared)
  {
    var now := at.(files := files);
    assert script !in changed && ContentAt(files, script) == ContentAt(at.files, script);
    assert MANIFEST_FILE !in changed;
    assert SameFiles(now, at, declared.files);
    SameFilesObserved(now, at, script, declared);
  }

  // After a persist, compiling does not invalidate the result: whatever changed below the classes
  // directory, the next run of a script that declared no inputs hits exactly when the result was
  // restorable.
  lemma CompilingKeepsHits(p: Platform, cache: Contents, at: Setting, files: Tree, scope: Scope, script: FileKey,
                           pending: Pending, dir: Path)
    requires p.Faithful() && JustPersisted(p, cache, at, scope, script, pending) && pending.directives.rerunFiles == {}
    requires ParsePath(at.classesDir) == Some(dir) && !(dir <= script) && !(dir <= MANIFEST_FILE)
    requires forall key: FileKey :: !(dir <= key) ==> ContentAt(files, key) == ContentAt(at.files, key)
    ensures script in files
    ensures Hits(p, cache, at.(files := files), scope, script) <==> Restorable(p, at, scope, script, pending)
  {
    var now, declared := at.(files := files), DeclaredBy(pending.directives);
    ClassesUnseen(at, files, scope, script, pending.directives.rerunEnv, dir);
    FingerprintCovers(now, at, scope, script, declared);
    HitsExactly(p, cache, at, now, scope, script, pending);
  }

  lemma PersistedJustNow(p: Platform, cache: Contents, at: Setting, scope: Scope, script: FileKey, budget: nat,
                         base: Contents)
    requires script in at.files && !Hits(p, base, at, scope, script)
    requires PrepareScript(p, base, at, scope, script).Ok?
    requires Persist(cache, PrepareScript(p, base, at, scope, script).value, budget).1 == None
    ensures var prepared := PrepareScript(p, base, at, scope, script).value;
      JustPersisted(p, Persist(cache, prepared, budget).0, at, scope, script, prepared.pending)
  {
    var prepared := PrepareScript(p, base, at, scope, script).value;
    MissShape(p, base, at, scope, script);
    PersistHolds(cache, prepared, budget);
  }

  lemma OutputsPublishable(cache: Contents, prepared: Prepared, keys: seq<FileKey>)
    requires forall key :: key in keys ==> key in prepared.pending.generated
    ensures (forall op <- OutputPublications(prepared, keys) :: Publishable(cache, op)) <==>
      forall i :: 0 <= i < |keys| ==>
        OutputUnspoilt(cache, prepared.scope, prepared.script, keys[i], prepared.pending.generated[keys[i]])
  {
    var outputs := OutputPublications(prepared, keys);
    forall i | 0 <= i < |keys|
      ensures Publishable(cache, outputs[i]) <==>
        OutputUnspoilt(cache, prepared.scope, prepared.script, keys[i], prepared.pending.generated[keys[i]])
    {
    }
  }

  lemma AllOfThem(cache: Contents, outputs: seq<Op>, x: Op, y: Op)
    ensures (forall op <- outputs + [x, y] :: Publishable(cache, op)) <==>
      (forall op <- outputs :: Publishable(cache, op)) && Publishable(cache, x) && Publishable(cache, y)
  {
    var all := outputs + [x, y];
    assert all[|outputs|] == x && all[|outputs| + 1] == y;
    assert forall op <- outputs :: op in all;
  }

  ghost predicate OutputsUnspoilt(cache: Contents, scope: Scope, script: FileKey, generated: Tree) {
    forall key <- generated :: OutputUnspoilt(cache, scope, script, key, generated[key])
  }

  lemma OperationsOf(cache: Contents, prepared: Prepared, record: Record)
    requires prepared.cacheState == Ok(Some(record)) && record.key.content == Of(record.bytes)
    ensures |PersistOps(prepared)| == |prepared.pending.generated| + 2
    ensures (forall op <- PersistOps(prepared) :: Publishable(cache, op)) <==>
      && OutputsUnspoilt(cache, prepared.scope, prepared.script, prepared.pending.generated)
      && Unspoilt(cache, record.key, record.bytes)
  {
    var keys := SortedKeys(prepared.pending.generated.Keys);
    OutputsPublishable(cache, prepared, keys);
    AllOfThem(cache, OutputPublications(prepared, keys), PublishArtifact(record.key, record.bytes),
              RecordCurrent(record.key));
    assert forall key <- prepared.pending.generated :: key in keys;
  }

  predicate OutputUnspoilt(cache: Contents, scope: Scope, script: FileKey, key: FileKey, bytes: Bytes) {
    Unspoilt(cache, CacheKey(Output, OutputProvenance(scope, script, key), Of(bytes)), bytes)
  }

  // The persist of a new result succeeds exactly when its record is within the limit, the backend
  // performs every operation, and no other bytes are stored where its outputs and record belong.
  lemma PersistsExactly(p: Platform, base: Contents, cache: Contents, at: Setting, scope: Scope, script: FileKey,
                        budget: nat)
    requires script in at.files && !Hits(p, base, at, scope, script)
    requires PrepareScript(p, base, at, scope, script).Ok?
    ensures var prepared := PrepareScript(p, base, at, scope, script).value;
      var (generated, bytes) := (prepared.pending.generated, StateBytes(p, at, scope, script, prepared.pending));
      Persist(cache, prepared, budget).1 == None <==>
        && |bytes| <= at.limits.maxCacheStateSize
        && |generated| + 2 <= budget
        && OutputsUnspoilt(cache, scope, script, generated)
        && Unspoilt(cache, CacheKey(State, StateProvenance(scope, script), Of(bytes)), bytes)
  {
    var prepared := PrepareScript(p, base, at, scope, script).value;
    MissShape(p, base, at, scope, script);
    RunSucceedsExactly(cache, PersistOps(prepared), budget);
    if prepared.cacheState.Ok? {
      OperationsOf(cache, prepared, prepared.cacheState.value.value);
    }
  }

  lemma NothingToPersist(cache: Contents, prepared: Prepared, budget: nat)
    requires prepared.cacheState == Ok(None)
    ensures Persist(cache, prepared, budget) == (cache, None)
  {
  }

  // Publishing a restored result again changes nothing and answers the same.
  lemma RepublishIsNoOp(store: Store, generated: Tree, prepared: Prepared, budget: nat)
    requires prepared.pending.generated == generated && prepared.recovered == map[] && prepared.cacheState == Ok(None)
    requires forall key <- generated :: key in store.files && store.files[key] == generated[key]
    ensures Combined(store.files, generated, KnownOutputs(generated, map[]), []) == []
    ensures Publish(store, generated, View(store.revision, store.files), prepared, [], true, budget)
         == (store, generated, Ok(PublishedOutput(prepared, store.revision, None)))
  {
    NothingToDo(store.files, generated, KnownOutputs(generated, map[]));
    NothingToPersist(store.cache, prepared, budget);
  }

  lemma GeneratedInPlace(files: Tree, generated: Tree, known: Tree, host: seq<Change>)
    requires Touched(host) !! generated.Keys
    requires ApplyAll(files, Combined(files, generated, known, host)).Some?
    ensures var after := ApplyAll(files, Combined(files, generated, known, host)).value;
      forall key <- generated :: key in after && after[key] == generated[key]
  {
    ReconcilePerKey(files, generated, known, host);
    var after := ApplyAll(files, Combined(files, generated, known, host)).value;
    forall key | key in generated ensures key in after && after[key] == generated[key] {
      assert ContentAt(after, key) == Some(generated[key]);
    }
  }

  // What a build did, when it missed, committed, and persisted.
  ghost predicate BuiltFresh(p: Platform, store: Store, session: Tree, at: Setting, scope: Scope, script: FileKey,
                             host: seq<Change>, budget: nat)
  {
    && script in at.files && at.files == store.files
    && !Hits(p, store.cache, at, scope, script)
    && PrepareScript(p, store.cache, at, scope, script).Ok?
    && var prepared := PrepareScript(p, store.cache, at, scope, script).value;
       && Touched(host) !! prepared.pending.generated.Keys
       && Publish(store, session, View(store.revision, store.files), prepared, host, true, budget).2.Ok?
       && Persist(store.cache, prepared, budget).1 == None
  }

  function Changes(store: Store, session: Tree, prepared: Prepared, host: seq<Change>): seq<Change> {
    Combined(store.files, prepared.pending.generated, KnownOutputs(session, prepared.recovered), host)
  }

  lemma ChangesUnobserved(at: Setting, files: Tree, after: Tree, script: FileKey, declared: DeclaredInputs,
                          changes: seq<Change>)
    requires script in at.files && at.files == files && ApplyAll(files, changes) == Some(after)
    requires forall change <- changes :: Unobserved(at, script, declared, change.key)
    ensures script in after
    ensures Observe(at.(files := after), script, declared) == Observe(at, script, declared)
  {
    UntouchedKept(files, changes);
    ObservationsSurvive(at, after, script, declared, Touched(changes));
  }

  // Publishing a hit on the tree a build left.
  lemma SecondPublish(files: Tree, generated: Tree, known: Tree, host: seq<Change>, after: Store, second: Prepared,
                      budget: nat)
    requires Touched(host) !! generated.Keys
    requires ApplyAll(files, Combined(files, generated, known, host)) == Some(after.files)
    requires second.pending.generated == generated && second.recovered == map[] && second.cacheState == Ok(None)
    ensures Changes(after, generated, second, []) == []
    ensures Publish(after, generated, View(after.revision, after.files), second, [], true, budget)
         == (after, generated, Ok(PublishedOutput(second, after.revision, None)))
  {
    GeneratedInPlace(files, generated, known, host);
    RepublishIsNoOp(after, generated, second, budget);
  }

  lemma NextRun(p: Platform, store: Store, session: Tree, at: Setting, scope: Scope, script: FileKey,
                host: seq<Change>, budget: nat, prepared: Prepared, after: Store)
    requires p.Faithful() && BuiltFresh(p, store, session, at, scope, script, host, budget)
    requires Ok(prepared) == PrepareScript(p, store.cache, at, scope, script)
    requires after == Publish(store, session, View(store.revision, store.files), prepared, host, true, budget).0
    requires forall change <- Changes(store, session, prepared, host) ::
               Unobserved(at, script, DeclaredBy(prepared.pending.directives), change.key)
    ensures var now := at.(files := after.files);
      && ApplyAll(store.files, Changes(store, session, prepared, host)) == Some(after.files)
      && (Hits(p, after.cache, now, scope, script) <==> Restorable(p, at, scope, script, prepared.pending))
      && (Hits(p, after.cache, now, scope, script) ==>
            PrepareScript(p, after.cache, now, scope, script)
              == Ok(Prepared(scope, script, prepared.pending, map[], Ok(None))))
  {
    var changes := Changes(store, session, prepared, host);
    assert ApplyAll(store.files, changes) == Some(after.files);
    ChangesUnobserved(at, store.files, after.files, script, DeclaredBy(prepared.pending.directives), changes);
    PersistedJustNow(p, store.cache, at, scope, script, budget, store.cache);
    HitsExactly(p, after.cache, at, at.(files := after.files), scope, script, prepared.pending);
  }

  // A build whose changes the fingerprint does not look at is followed by a hit exactly when its
  // result is restorable. The hit answers with that result, stages nothing, and keeps the tree, the
  // revision, the cache, and the session.
  lemma BuildNeverInvalidatesItself(p: Platform, store: Store, session: Tree, at: Setting, scope: Scope,
                                    script: FileKey, host: seq<Change>, budget: nat, again: nat)
    requires p.Faithful() && BuiltFresh(p, store, session, at, scope, script, host, budget)
    requires var prepared := PrepareScript(p, store.cache, at, scope, script).value;
      forall change <- Changes(store, session, prepared, host) ::
        Unobserved(at, script, DeclaredBy(prepared.pending.directives), change.key)
    ensures var prepared := PrepareScript(p, store.cache, at, scope, script).value;
      var (after, owned, output) :=
        Publish(store, session, View(store.revision, store.files), prepared, host, true, budget);
      var now := at.(files := after.files);
      && (Hits(p, after.cache, now, scope, script) <==> Restorable(p, at, scope, script, prepared.pending))
      && (Hits(p, after.cache, now, scope, script) ==>
            && PrepareScript(p, after.cache, now, scope, script).Ok?
            && var second := PrepareScript(p, after.cache, now, scope, script).value;
               && second.pending == prepared.pending
               && Changes(after, owned, second, []) == []
               && Publish(after, owned, View(after.revision, after.files), second, [], true, again)
                    == (after, owned, output))
  {
    var prepared := PrepareScript(p, store.cache, at, scope, script).value;
    var after := Publish(store, session, View(store.revision, store.files), prepared, host, true, budget).0;
    var now := at.(files := after.files);
    NextRun(p, store, session, at, scope, script, host, budget, prepared, after);
    if Hits(p, after.cache, now, scope, script) {
      SecondPublish(store.files, prepared.pending.generated, KnownOutputs(session, prepared.recovered), host, after,
                    PrepareScript(p, after.cache, now, scope, script).value, again);
    }
  }
}
