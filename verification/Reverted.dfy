// A file put back to bytes published before the last ones, and taken for generated after a restart.
module Reverted {
  import opened Text
  import opened Paths
  import opened Identity
  import opened Cache
  import opened Model
  import opened Fingerprint
  import opened Preparation
  import opened Publication
  import opened Refinement
  import opened Rerun
  import opened Flights
  import opened Runs
  import opened Deletion

  // ---- A persist nothing fails ----

  predicate Verified(cache: Contents) {
    forall key <- cache.entries :: Of(cache.entries[key]) == key.content
  }

  predicate Addressed(op: Op) {
    op.PublishArtifact? ==> Of(op.bytes) == op.key.content
  }

  lemma PerformsVerified(cache: Contents, op: Op)
    requires Verified(cache) && Addressed(op)
    ensures Perform(cache, op).Ok? && Verified(Perform(cache, op).value)
  {
  }

  lemma {:induction false} RunSucceeds(cache: Contents, ops: seq<Op>)
    requires Verified(cache) && forall op <- ops :: Addressed(op)
    ensures Run(cache, ops, |ops|).1 == None
    decreases |ops|
  {
    if ops != [] {
      assert ops[0] in ops && forall op <- ops[1..] :: op in ops;
      PerformsVerified(cache, ops[0]);
      RunSucceeds(Perform(cache, ops[0]).value, ops[1..]);
    }
  }

  lemma PublicationsAddressed(prepared: Prepared, keys: seq<FileKey>)
    requires forall key :: key in keys ==> key in prepared.pending.generated
    ensures forall op <- OutputPublications(prepared, keys) :: Addressed(op)
  {
    forall op <- OutputPublications(prepared, keys) ensures Addressed(op) {
      var i :| 0 <= i < |keys| && OutputPublications(prepared, keys)[i] == op;
      assert op == OutputPublication(prepared, keys[i]);
    }
  }

  lemma AllAddressed(publications: seq<Op>, record: Record)
    requires forall op <- publications :: Addressed(op)
    requires Of(record.bytes) == record.key.content
    ensures forall op <- publications + [PublishArtifact(record.key, record.bytes), RecordCurrent(record.key)] ::
      Addressed(op)
  {
  }

  lemma PersistSucceeds(prepared: Prepared)
    requires prepared.cacheState.Ok? && prepared.cacheState.value.Some?
    requires var record := prepared.cacheState.value.value; Of(record.bytes) == record.key.content
    ensures Persist(EMPTY, prepared, |PersistOps(prepared)|).1 == None
  {
    var keys := SortedKeys(prepared.pending.generated.Keys);
    PublicationsAddressed(prepared, keys);
    AllAddressed(OutputPublications(prepared, keys), prepared.cacheState.value.value);
    RunSucceeds(EMPTY, PersistOps(prepared));
  }

  // ---- One build of a tree ----

  function SettingIn(p: Platform, files: Tree, environment: Environment, limits: Limits): Setting {
    SettingOf(files, p.manifestOf(ContentAt(files, MANIFEST_FILE)), environment, limits)
  }

  // The script runs in this tree, and gives this result.
  ghost predicate Gives(p: Platform, files: Tree, script: FileKey, environment: Environment, limits: Limits,
                  pending: Pending)
  {
    var at := SettingIn(p, files, environment, limits);
    && p.manifestOf(ContentAt(files, MANIFEST_FILE)).script == Some(Render(script))
    && Runnable(p, at, script) && Direct(p, at, script) == Ok(pending)
  }

  // What a miss prepares.
  function Missed(p: Platform, cache: Contents, at: Setting, script: FileKey, pending: Pending): Prepared
    requires script in at.files
  {
    var loaded := LoadCached(p, cache, at, Root, script);
    Prepared(Root, script, pending, if loaded.Some? then loaded.value.generated else map[],
             CacheState(p, at, Root, script, pending))
  }

  lemma MissPrepares(p: Platform, cache: Contents, files: Tree, script: FileKey, environment: Environment,
                     limits: Limits, pending: Pending)
    requires Gives(p, files, script, environment, limits, pending)
    requires !Hits(p, cache, SettingIn(p, files, environment, limits), Root, script)
    ensures var at := SettingIn(p, files, environment, limits);
      && PrepareScript(p, cache, at, Root, script) == Ok(Missed(p, cache, at, script, pending))
      && PrepareIn(p, cache, files, Root, environment, limits) == Ok(Some(Missed(p, cache, at, script, pending)))
  {
    var at := SettingIn(p, files, environment, limits);
    CheckScriptExactly(p, at, Render(script), script);
  }

  // ---- Steps of the run ----

  lemma {:induction false} RunAllConcat(p: Platform, w: World, a: seq<Event>, b: seq<Event>)
    ensures RunAll(p, w, a + b) == RunAll(p, RunAll(p, w, a), b)
    decreases |a|
  {
    if a == [] {
      assert a + b == b;
    } else {
      assert (a + b)[0] == a[0] && (a + b)[1..] == a[1..] + b;
      RunAllConcat(p, Step(p, w, a[0]), a[1..], b);
    }
  }

  lemma RunFirst(p: Platform, w: World, e: Event, rest: seq<Event>)
    ensures RunAll(p, w, [e] + rest) == RunAll(p, Step(p, w, e), rest)
  {
    assert ([e] + rest)[1..] == rest;
  }

  lemma RunOne(p: Platform, w: World, e: Event)
    ensures RunAll(p, w, [e]) == Step(p, w, e)
  {
    RunFirst(p, w, e, []);
    assert [e] + [] == [e];
  }

  // The user leaves this tree, and the host prepares it.
  function Prepares(files: Tree, environment: Environment, limits: Limits): seq<Event> {
    [Edit(files)] + [PrepareRoot(environment, limits)]
  }

  // Apart from the tree and the slot, nothing has changed.
  predicate SameRest(w: World, v: World) {
    && v.store.cache == w.store.cache && v.session == w.session && v.flights == w.flights
    && v.last == w.last && v.history == w.history
  }

  lemma EditThere(p: Platform, w: World, files: Tree)
    ensures Step(p, w, Edit(files)).store.files == files && SameRest(w, Step(p, w, Edit(files)))
  {
  }

  lemma PrepareThere(p: Platform, w: World, script: FileKey, environment: Environment, limits: Limits,
                     pending: Pending)
    requires Gives(p, w.store.files, script, environment, limits, pending)
    requires !Hits(p, w.store.cache, SettingIn(p, w.store.files, environment, limits), Root, script)
    ensures StepPrepare(p, w, environment, limits) ==
      w.(slot := Some((View(w.store.revision, w.store.files),
                       Missed(p, w.store.cache, SettingIn(p, w.store.files, environment, limits), script, pending))))
  {
    MissPrepares(p, w.store.cache, w.store.files, script, environment, limits, pending);
  }

  lemma PreparedThere(p: Platform, w: World, files: Tree, script: FileKey, environment: Environment, limits: Limits,
                      pending: Pending)
    requires Gives(p, files, script, environment, limits, pending)
    requires !Hits(p, w.store.cache, SettingIn(p, files, environment, limits), Root, script)
    ensures var after := RunAll(p, w, Prepares(files, environment, limits));
      && after.store.files == files && SameRest(w, after)
      && after.slot == Some((View(after.store.revision, files),
                             Missed(p, w.store.cache, SettingIn(p, files, environment, limits), script, pending)))
  {
    var mid := Step(p, w, Edit(files));
    EditThere(p, w, files);
    RunFirst(p, w, Edit(files), [PrepareRoot(environment, limits)]);
    RunOne(p, mid, PrepareRoot(environment, limits));
    PrepareThere(p, mid, script, environment, limits, pending);
  }

  // Publishing what was prepared just now commits.
  lemma CommitsFresh(w: World)
    requires w.slot.Some? && w.slot.value.0 == View(w.store.revision, w.store.files)
    ensures Committed(w, [], true).Ok? && Committed(w, [], true).value.cache == w.store.cache
    ensures var prepared := w.slot.value.1;
      var known := KnownOutputs(w.session, prepared.recovered);
      forall key :: Stale(w.store.files, prepared.pending.generated, known, key) ==>
        key !in Committed(w, [], true).value.files
  {
    var (view, prepared) := w.slot.value;
    var known := KnownOutputs(w.session, prepared.recovered);
    var changes := Combined(view.files, prepared.pending.generated, known, []);
    ReconcilePerKey(view.files, prepared.pending.generated, known, []);
    CommitFiles(w.store, view.revision, changes, true);
    forall key | Stale(w.store.files, prepared.pending.generated, known, key)
      ensures key !in Committed(w, [], true).value.files
    {
      assert ContentAt(ApplyAll(view.files, changes).value, key) == None;
    }
  }

  lemma PublishesFresh(p: Platform, w: World)
    requires w.slot.Some? && Committed(w, [], true).Ok? && Committed(w, [], true).value.cache == w.store.cache
    ensures StepPublish(w, [], true).store == Committed(w, [], true).value
    ensures StepPublish(w, [], true).last == w.last + w.slot.value.1.pending.generated
    ensures StepPublish(w, [], true).flights == w.flights + [Flight(w.slot.value.1, 0)]
  {
  }

  // A build of a tree: edited, prepared, published, its persist just begun.
  function Builds(files: Tree, environment: Environment, limits: Limits): seq<Event> {
    Prepares(files, environment, limits) + [PublishRoot([], true)]
  }

  lemma BuiltThere(p: Platform, w: World, files: Tree, script: FileKey, environment: Environment, limits: Limits,
                   pending: Pending)
    requires Gives(p, files, script, environment, limits, pending)
    requires !Hits(p, w.store.cache, SettingIn(p, files, environment, limits), Root, script)
    ensures var after := RunAll(p, w, Builds(files, environment, limits));
      var prepared := Missed(p, w.store.cache, SettingIn(p, files, environment, limits), script, pending);
      && after.store.cache == w.store.cache && after.last == w.last + pending.generated
      && after.flights == w.flights + [Flight(prepared, 0)]
  {
    PreparedThere(p, w, files, script, environment, limits, pending);
    var mid := RunAll(p, w, Prepares(files, environment, limits));
    RunAllConcat(p, w, Prepares(files, environment, limits), [PublishRoot([], true)]);
    RunOne(p, mid, PublishRoot([], true));
    CommitsFresh(mid);
    PublishesFresh(p, mid);
  }

  // ---- The run ----

  // One script over three trees: it generates `key` as `v1`, then, changed, as something else, then
  // not at all; and in the third tree the user has put `v1` back.
  ghost predicate Story(p: Platform, trees: seq<Tree>, script: FileKey, environment: Environment, limits: Limits,
                        results: seq<Pending>, key: FileKey)
  {
    && p.Faithful() && |trees| == 3 && |results| == 3
    && (forall i :: 0 <= i < 3 ==> Gives(p, trees[i], script, environment, limits, results[i]))
    && script in trees[0] && script in trees[1] && script in trees[2]
    && trees[1][script] != trees[0][script] && trees[2][script] != trees[0][script]
    && key in results[0].generated && key in results[1].generated && key !in results[2].generated
    && results[1].generated[key] != results[0].generated[key]
    && key in trees[2] && trees[2][key] == results[0].generated[key]
    && Restorable(p, SettingIn(p, trees[0], environment, limits), Root, script, results[0])
    && CacheState(p, SettingIn(p, trees[0], environment, limits), Root, script, results[0]).Ok?
  }

  // What the cache holds once the first result is persisted.
  function FirstCache(p: Platform, files: Tree, script: FileKey, environment: Environment, limits: Limits,
                      pending: Pending): Contents
    requires script in files
  {
    var prepared := Missed(p, EMPTY, SettingIn(p, files, environment, limits), script, pending);
    Persist(EMPTY, prepared, |PersistOps(prepared)|).0
  }

  lemma EmptyMisses(p: Platform, at: Setting, script: FileKey)
    ensures !Hits(p, EMPTY, at, Root, script)
  {
  }

  lemma FirstPersisted(p: Platform, files: Tree, script: FileKey, environment: Environment, limits: Limits,
                       pending: Pending)
    requires script in files && Gives(p, files, script, environment, limits, pending)
    requires CacheState(p, SettingIn(p, files, environment, limits), Root, script, pending).Ok?
    ensures JustPersisted(p, FirstCache(p, files, script, environment, limits, pending),
                          SettingIn(p, files, environment, limits), Root, script, pending)
  {
    var at := SettingIn(p, files, environment, limits);
    EmptyMisses(p, at, script);
    MissPrepares(p, EMPTY, files, script, environment, limits, pending);
    var prepared := Missed(p, EMPTY, at, script, pending);
    PersistSucceeds(prepared);
    PersistedJustNow(p, EMPTY, at, Root, script, |PersistOps(prepared)|, EMPTY);
  }

  // A run of another script under the same name recovers the outputs and cannot hit.
  lemma ChangedScriptRecovers(p: Platform, cache: Contents, at: Setting, now: Setting, script: FileKey,
                              pending: Pending)
    requires p.Faithful() && JustPersisted(p, cache, at, Root, script, pending)
    requires script in now.files && now.limits == at.limits && now.files[script] != at.files[script]
    requires Restorable(p, at, Root, script, pending)
    ensures !Hits(p, cache, now, Root, script)
    ensures LoadCached(p, cache, now, Root, script).Some?
    ensures LoadCached(p, cache, now, Root, script).value.generated == pending.generated
  {
    HitsExactly(p, cache, at, now, Root, script, pending);
    PersistedState(p, cache, at, now, Root, script, pending);
    StateKeysDistinct(p, cache, Root, script, now.limits);
    RecoveredExactly(p, cache, Root, script, now.limits, ReadBack(p, at, Root, script, pending), pending.generated);
  }

  function PersistLength(p: Platform, files: Tree, script: FileKey, environment: Environment, limits: Limits,
                         pending: Pending): nat
    requires script in files
  {
    |PersistOps(Missed(p, EMPTY, SettingIn(p, files, environment, limits), script, pending))|
  }

  // The first build, its persist run to the end.
  lemma FirstBuild(p: Platform, files: Tree, script: FileKey, environment: Environment, limits: Limits,
                   pending: Pending)
    requires script in files && Gives(p, files, script, environment, limits, pending)
    ensures var n := PersistLength(p, files, script, environment, limits, pending);
      var after := RunAll(p, Initial(files), Builds(files, environment, limits) + Advances(0, n));
      after.store.cache == FirstCache(p, files, script, environment, limits, pending)
  {
    var n := PersistLength(p, files, script, environment, limits, pending);
    var built := RunAll(p, Initial(files), Builds(files, environment, limits));
    EmptyMisses(p, SettingIn(p, files, environment, limits), script);
    BuiltThere(p, Initial(files), files, script, environment, limits, pending);
    RunAllConcat(p, Initial(files), Builds(files, environment, limits), Advances(0, n));
    AdvancesStep(p, built, Advancer(0), 0, n);
    PersistAlone(Missed(p, EMPTY, SettingIn(p, files, environment, limits), script, pending), n);
  }

  lemma PersistAlone(prepared: Prepared, n: nat)
    ensures Iterate(Advancer(0), System(EMPTY, [] + [Flight(prepared, 0)]), n).cache == Persist(EMPTY, prepared, n).0
  {
    AdvancerDrives([], prepared);
    FlownAlone(Advancer(0), EMPTY, [], prepared, PersistOps(prepared), 0, n);
    RunFrom(EMPTY, PersistOps(prepared), 0, n);
    assert PersistOps(prepared)[0..] == PersistOps(prepared);
    UnrecordedRuns(EMPTY, prepared, n);
  }

  // The second build, and the third preparation after a restart.
  function Rest(trees: seq<Tree>, environment: Environment, limits: Limits): seq<Event>
    requires |trees| == 3
  {
    Builds(trees[1], environment, limits) + ([Restart] + Prepares(trees[2], environment, limits))
  }

  lemma RestOfStory(p: Platform, w: World, trees: seq<Tree>, script: FileKey, environment: Environment,
                    limits: Limits, results: seq<Pending>, key: FileKey)
    requires Story(p, trees, script, environment, limits, results, key)
    requires w.store.cache == FirstCache(p, trees[0], script, environment, limits, results[0])
    ensures var after := RunAll(p, w, Rest(trees, environment, limits));
      && after.store.files == trees[2] && after.session == map[]
      && key in after.last && after.last[key] == results[1].generated[key]
      && after.slot.Some? && after.slot.value.0 == View(after.store.revision, trees[2])
      && after.slot.value.1.pending == results[2] && after.slot.value.1.recovered == results[0].generated
  {
    var at := SettingIn(p, trees[0], environment, limits);
    FirstPersisted(p, trees[0], script, environment, limits, results[0]);
    ChangedScriptRecovers(p, w.store.cache, at, SettingIn(p, trees[1], environment, limits), script, results[0]);
    BuiltThere(p, w, trees[1], script, environment, limits, results[1]);
    var built := RunAll(p, w, Builds(trees[1], environment, limits));
    var later := [Restart] + Prepares(trees[2], environment, limits);
    RunAllConcat(p, w, Builds(trees[1], environment, limits), later);
    RunFirst(p, built, Restart, Prepares(trees[2], environment, limits));
    ChangedScriptRecovers(p, w.store.cache, at, SettingIn(p, trees[2], environment, limits), script, results[0]);
    RestartForgets(p, built);
    PreparedThere(p, Step(p, built, Restart), trees[2], script, environment, limits, results[2]);
  }

  lemma RestartForgets(p: Platform, w: World)
    ensures var after := Step(p, w, Restart);
      after.store.cache == w.store.cache && after.session == map[] && after.last == w.last
  {
  }

  // Publishing then removes the file, though what it holds is not what was last published there.
  lemma RevertedFileRemoved(p: Platform, trees: seq<Tree>, script: FileKey, environment: Environment, limits: Limits,
                            results: seq<Pending>, key: FileKey)
    requires Story(p, trees, script, environment, limits, results, key)
    ensures var n := PersistLength(p, trees[0], script, environment, limits, results[0]);
      var w := RunAll(p, Initial(trees[0]),
                      Builds(trees[0], environment, limits) + Advances(0, n) + Rest(trees, environment, limits));
      && key in w.store.files && w.store.files[key] == results[0].generated[key]
      && key in w.last && w.last[key] != w.store.files[key]
      && key !in Step(p, w, PublishRoot([], true)).store.files
  {
    var n := PersistLength(p, trees[0], script, environment, limits, results[0]);
    var first := Builds(trees[0], environment, limits) + Advances(0, n);
    FirstBuild(p, trees[0], script, environment, limits, results[0]);
    RunAllConcat(p, Initial(trees[0]), first, Rest(trees, environment, limits));
    RestOfStory(p, RunAll(p, Initial(trees[0]), first), trees, script, environment, limits, results, key);
    RecoveredIsRemoved(p, RunAll(p, Initial(trees[0]), first + Rest(trees, environment, limits)), key);
  }

  predicate RecoveredAlone(w: World, key: FileKey) {
    && w.slot.Some? && w.slot.value.0 == View(w.store.revision, w.store.files) && w.session == map[]
    && var prepared := w.slot.value.1;
       && key !in prepared.pending.generated && key in prepared.recovered
       && key in w.store.files && w.store.files[key] == prepared.recovered[key]
  }

  lemma RecoveredIsRemoved(p: Platform, w: World, key: FileKey)
    requires RecoveredAlone(w, key)
    ensures key !in Step(p, w, PublishRoot([], true)).store.files
  {
    RecoveredIsGone(p, w, key);
  }

  lemma RecoveredIsGone(p: Platform, w: World, key: FileKey)
    requires RecoveredAlone(w, key)
    ensures key !in StepPublish(w, [], true).store.files
  {
    CommitsFresh(w);
    PublishesFresh(p, w);
  }
}
