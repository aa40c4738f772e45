// Whole runs of a project: prepare, publish, clear, user edits, restarts, dependency preparations, the
// single backend operations of every persist under way, and a backend that loses or damages what it
// stores, in any order.
module Runs {
  import opened Text
  import opened Paths
  import opened Identity
  import opened Cache
  import opened Model
  import opened Fingerprint
  import opened StateCodec
  import opened Preparation
  import opened Publication
  import opened Refinement
  import opened Flights

  type Outputs = set<(FileKey, Bytes)>

  // `last` is what a publish of this project last committed at each path, and `history` everything
  // one ever did.
  datatype World = World(
    store: Store, session: Tree, slot: Option<(View, Prepared)>, flights: seq<Flight>, last: Tree, history: Outputs)

  // A publish commits, and its persist is then under way; a dependency's is as soon as it is prepared.
  datatype Event =
    | PrepareRoot(environment: Environment, limits: Limits)
    | PublishRoot(host: seq<Change>, succeeds: bool)
    | ClearRoot(succeeds: bool)
    | BeginDependency(digest: Digest, files: Tree, environment: Environment, limits: Limits)
    | Advance(i: nat)
    | Crash(i: nat)
    | Edit(files: Tree)
    | Restart
    | Damage(entries: map<CacheKey, Bytes>, forgotten: set<IndexKey>)

  function Items(files: Tree): Outputs {
    set key <- files :: (key, files[key])
  }

  function PrepareIn(p: Platform, cache: Contents, files: Tree, scope: Scope, environment: Environment,
                     limits: Limits): Result<Option<Prepared>, Error>
  {
    Prepare(p, cache, files, scope, p.manifestOf(ContentAt(files, MANIFEST_FILE)), environment, limits)
  }

  function Initial(files: Tree): World {
    World(Store(files, 0, EMPTY), map[], None, [], map[], {})
  }

  function Step(p: Platform, w: World, e: Event): World {
    match e
    case PrepareRoot(environment, limits) => StepPrepare(p, w, environment, limits)
    case PublishRoot(host, succeeds) => StepPublish(w, host, succeeds)
    case ClearRoot(succeeds) => StepClear(w, succeeds)
    case BeginDependency(digest, files, environment, limits) =>
      StepDependency(p, w, digest, files, environment, limits)
    case Advance(i) => WithSystem(w, Advanced(SystemOf(w), i))
    case Crash(i) => WithSystem(w, Stopped(SystemOf(w), i))
    case Edit(files) =>
      if files == w.store.files then w
      else w.(store := w.store.(files := files, revision := w.store.revision + 1))
    case Restart =>
      w.(store := w.store.(revision := 0), session := map[], slot := None)
    case Damage(entries, forgotten) =>
      w.(store := w.store.(cache := Contents(entries, w.store.cache.index - forgotten)))
  }

  function SystemOf(w: World): System {
    System(w.store.cache, w.flights)
  }

  function WithSystem(w: World, s: System): World {
    w.(store := w.store.(cache := s.cache), flights := s.flights)
  }

  function StepPrepare(p: Platform, w: World, environment: Environment, limits: Limits): World {
    var r := PrepareIn(p, w.store.cache, w.store.files, Root, environment, limits);
    var slot := if r.Ok? && r.value.Some?
      then Some((View(w.store.revision, w.store.files), r.value.value))
      else None;
    w.(slot := slot)
  }

  // The transaction of publishing what is in the slot.
  function Committed(w: World, host: seq<Change>, succeeds: bool): Result<Store, PublishError>
    requires w.slot.Some?
  {
    var (view, prepared) := w.slot.value;
    Commit(w.store, view.revision,
           Combined(view.files, prepared.pending.generated, KnownOutputs(w.session, prepared.recovered), host),
           succeeds)
  }

  function StepPublish(w: World, host: seq<Change>, succeeds: bool): World {
    if w.slot.None? || Committed(w, host, succeeds).Err? then w
    else
      var prepared := w.slot.value.1;
      var generated := prepared.pending.generated;
      World(Committed(w, host, succeeds).value, generated, w.slot, w.flights + [Flight(prepared, 0)],
            w.last + generated, w.history + Items(generated))
  }

  function StepClear(w: World, succeeds: bool): World {
    var (store, session, _) := Clear(w.store, w.session, succeeds);
    w.(store := store, session := session)
  }

  function StepDependency(p: Platform, w: World, digest: Digest, files: Tree, environment: Environment,
                          limits: Limits): World
  {
    Launched(w, PrepareIn(p, w.store.cache, files, Dependency(digest), environment, limits))
  }

  // The persist of what was prepared is under way.
  function Launched(w: World, r: Result<Option<Prepared>, Error>): World {
    if r.Ok? && r.value.Some? then w.(flights := w.flights + [Flight(r.value.value, 0)]) else w
  }

  function RunAll(p: Platform, w: World, events: seq<Event>): World
    decreases |events|
  {
    if events == [] then w else RunAll(p, Step(p, w, events[0]), events[1..])
  }

  // ---- What every reachable world keeps ----

  ghost predicate EngineWrote(p: Platform, key: FileKey, bytes: Bytes) {
    exists at, script, pending ::
      Evaluates(p, at, script, pending) && key in pending.generated && pending.generated[key] == bytes
  }

  ghost predicate AllEngineWrote(p: Platform, outputs: Outputs) {
    forall item <- outputs :: EngineWrote(p, item.0, item.1)
  }

  function RecordedOutputs(state: Decoded): Outputs {
    set i | 0 <= i < |state.outputs| :: (state.outputs[i].0, state.outputs[i].1.content)
  }

  // Whatever root project a record reads back for, its outputs were committed.
  ghost predicate OwnedRecord(p: Platform, bytes: Bytes, history: Outputs) {
    forall script :: DecodeState(p, bytes, Root, script).Some? ==>
      RecordedOutputs(DecodeState(p, bytes, Root, script).value) <= history
  }

  ghost predicate OwnedIndex(p: Platform, cache: Contents, history: Outputs) {
    forall key <- cache.index | key.0.State? :: OwnedRecord(p, cache.index[key].content, history)
  }

  // The record a preparation carries is genuine, and keyed as such.
  ghost predicate GenuineRecord(p: Platform, prepared: Prepared) {
    prepared.cacheState.Ok? && prepared.cacheState.value.Some? ==>
      var record := prepared.cacheState.value.value;
      && record.key == CacheKey(State, StateProvenance(prepared.scope, prepared.script), Of(record.bytes))
      && exists at :: GenuineFor(p, record.bytes, at, prepared.scope, prepared.script, prepared.pending)
  }

  ghost predicate SlotInvariant(p: Platform, w: World) {
    w.slot.Some? ==>
      var (view, prepared) := w.slot.value;
      && prepared.scope == Root
      && GenuineRecord(p, prepared)
      && AllEngineWrote(p, Items(prepared.pending.generated))
      && Items(prepared.recovered) <= w.history
      && view.revision <= w.store.revision
      && (view.revision == w.store.revision ==> view.files == w.store.files)
  }

  // A persist under way writes a genuine record, and the root project's outputs are committed.
  ghost predicate FlightSound(p: Platform, f: Flight, history: Outputs) {
    && GenuineRecord(p, f.prepared)
    && (f.prepared.scope == Root ==> Items(f.prepared.pending.generated) <= history)
  }

  ghost predicate FlightsSound(p: Platform, flights: seq<Flight>, history: Outputs) {
    forall f <- flights :: FlightSound(p, f, history)
  }

  // The session remembers what was last published.
  predicate SessionIsLast(session: Tree, last: Tree) {
    forall key <- session :: key in last && last[key] == session[key]
  }

  ghost predicate CacheSound(p: Platform, s: System, history: Outputs) {
    GenuineIndex(p, s.cache) && OwnedIndex(p, s.cache, history) && FlightsSound(p, s.flights, history)
  }

  ghost predicate Invariant(p: Platform, w: World) {
    && CacheSound(p, SystemOf(w), w.history)
    && Items(w.session) <= w.history
    && SessionIsLast(w.session, w.last)
    && AllEngineWrote(p, w.history)
    && SlotInvariant(p, w)
  }

  // ---- Persisting keeps the index genuine and owned ----

  lemma OnlyPublications(prepared: Prepared, keys: seq<FileKey>, op: Op)
    requires forall key :: key in keys ==> key in prepared.pending.generated
    requires op in OutputPublications(prepared, keys)
    ensures op.PublishArtifact?
  {
    var publications := OutputPublications(prepared, keys);
    var i :| 0 <= i < |publications| && publications[i] == op;
    assert op == OutputPublication(prepared, keys[i]);
  }

  lemma RecordedByPersist(prepared: Prepared, key: CacheKey)
    requires RecordCurrent(key) in PersistOps(prepared)
    ensures prepared.cacheState.Ok? && prepared.cacheState.value.Some?
    ensures key == prepared.cacheState.value.value.key
  {
    var keys := SortedKeys(prepared.pending.generated.Keys);
    if RecordCurrent(key) in OutputPublications(prepared, keys) {
      OnlyPublications(prepared, keys, RecordCurrent(key));
    }
  }

  lemma RecordOwned(p: Platform, prepared: Prepared, history: Outputs)
    requires p.Faithful() && GenuineRecord(p, prepared)
    requires prepared.cacheState.Ok? && prepared.cacheState.value.Some?
    requires prepared.scope == Root ==> Items(prepared.pending.generated) <= history
    ensures OwnedRecord(p, prepared.cacheState.value.value.bytes, history)
  {
    var bytes := prepared.cacheState.value.value.bytes;
    var at :| GenuineFor(p, bytes, at, prepared.scope, prepared.script, prepared.pending);
    forall script | DecodeState(p, bytes, Root, script).Some?
      ensures RecordedOutputs(DecodeState(p, bytes, Root, script).value) <= history
    {
      GenuineDecodes(p, bytes, at, prepared.scope, prepared.script, prepared.pending, Root, script);
      DigestsAreItems(prepared.pending.generated, DecodeState(p, bytes, Root, script).value);
    }
  }

  lemma DigestsAreItems(generated: Tree, state: Decoded)
    requires state.outputs == OutputDigests(generated)
    ensures RecordedOutputs(state) <= Items(generated)
  {
    var keys := SortedKeys(generated.Keys);
    forall i | 0 <= i < |state.outputs|
      ensures (state.outputs[i].0, state.outputs[i].1.content) in Items(generated)
    {
      assert keys[i] in generated;
    }
  }

  lemma RecordedOwned(p: Platform, cache: Contents, key: CacheKey, history: Outputs)
    requires OwnedIndex(p, cache, history) && OwnedRecord(p, key.content.content, history)
    ensures OwnedIndex(p, RecordIndex(cache, key), history)
  {
  }

  lemma RecordedGenuine(p: Platform, cache: Contents, key: CacheKey)
    requires GenuineIndex(p, cache) && Genuine(p, key.content.content)
    ensures GenuineIndex(p, RecordIndex(cache, key))
  {
  }

  lemma PerformGenuine(p: Platform, cache: Contents, prepared: Prepared, op: Op)
    requires GenuineIndex(p, cache) && GenuineRecord(p, prepared)
    requires op in PersistOps(prepared) && Perform(cache, op).Ok?
    ensures GenuineIndex(p, Perform(cache, op).value)
  {
    if op.RecordCurrent? {
      RecordedByPersist(prepared, op.key);
      RecordedGenuine(p, cache, op.key);
    }
  }

  lemma PerformOwned(p: Platform, cache: Contents, f: Flight, op: Op, history: Outputs)
    requires p.Faithful() && OwnedIndex(p, cache, history) && FlightSound(p, f, history)
    requires op in PersistOps(f.prepared) && Perform(cache, op).Ok?
    ensures OwnedIndex(p, Perform(cache, op).value, history)
  {
    if op.RecordCurrent? {
      RecordedByPersist(f.prepared, op.key);
      RecordOwned(p, f.prepared, history);
      RecordedOwned(p, cache, op.key, history);
    }
  }

  lemma PerformSound(p: Platform, cache: Contents, f: Flight, history: Outputs)
    requires p.Faithful() && GenuineIndex(p, cache) && OwnedIndex(p, cache, history) && FlightSound(p, f, history)
    requires f.done < |PersistOps(f.prepared)| && Perform(cache, PersistOps(f.prepared)[f.done]).Ok?
    ensures var after := Perform(cache, PersistOps(f.prepared)[f.done]).value;
      GenuineIndex(p, after) && OwnedIndex(p, after, history)
  {
    var op := PersistOps(f.prepared)[f.done];
    PerformGenuine(p, cache, f.prepared, op);
    PerformOwned(p, cache, f, op, history);
  }

  lemma FlightAdvances(p: Platform, flights: seq<Flight>, i: nat, history: Outputs)
    requires FlightsSound(p, flights, history) && i < |flights|
    ensures FlightSound(p, flights[i], history)
    ensures FlightsSound(p, flights[i := flights[i].(done := flights[i].done + 1)], history)
    ensures FlightsSound(p, flights[..i] + flights[i + 1..], history)
  {
    var next := flights[i].(done := flights[i].done + 1);
    assert flights[i] in flights;
    assert FlightSound(p, next, history);
    assert forall f <- flights[i := next] :: f == next || f in flights;
    assert forall f <- flights[..i] + flights[i + 1..] :: f in flights;
  }

  lemma AfterOpSound(p: Platform, s: System, i: nat, history: Outputs)
    requires p.Faithful() && CacheSound(p, s, history)
    requires i < |s.flights| && s.flights[i].done < |PersistOps(s.flights[i].prepared)|
    ensures var step := Perform(s.cache, PersistOps(s.flights[i].prepared)[s.flights[i].done]);
      CacheSound(p, AfterOp(s, i, step), history)
  {
    FlightAdvances(p, s.flights, i, history);
    if Perform(s.cache, PersistOps(s.flights[i].prepared)[s.flights[i].done]).Ok? {
      PerformSound(p, s.cache, s.flights[i], history);
    }
  }

  lemma AdvancedSound(p: Platform, s: System, i: nat, history: Outputs)
    requires p.Faithful() && CacheSound(p, s, history)
    ensures CacheSound(p, Advanced(s, i), history)
  {
    if i < |s.flights| && s.flights[i].done < |PersistOps(s.flights[i].prepared)| {
      AfterOpSound(p, s, i, history);
    }
  }

  lemma StoppedSound(p: Platform, s: System, i: nat, history: Outputs)
    requires CacheSound(p, s, history)
    ensures CacheSound(p, Stopped(s, i), history)
  {
    if i < |s.flights| {
      FlightAdvances(p, s.flights, i, history);
    }
  }

  lemma CacheSoundGrows(p: Platform, s: System, a: Outputs, b: Outputs)
    requires CacheSound(p, s, a) && a <= b
    ensures CacheSound(p, s, b)
  {
    OwnedGrows(p, s.cache, a, b);
    forall f | f in s.flights ensures FlightSound(p, f, b) {
      assert FlightSound(p, f, a);
    }
  }

  lemma FlightJoins(p: Platform, s: System, f: Flight, history: Outputs)
    requires CacheSound(p, s, history) && FlightSound(p, f, history)
    ensures CacheSound(p, s.(flights := s.flights + [f]), history)
  {
  }

  // ---- Preparing ----

  lemma PreparedRecord(p: Platform, cache: Contents, at: Setting, scope: Scope, script: FileKey)
    requires script in at.files && OwnManifest(p, at)
    requires PrepareScript(p, cache, at, scope, script).Ok?
    ensures var prepared := PrepareScript(p, cache, at, scope, script).value;
      prepared.scope == scope && prepared.script == script && GenuineRecord(p, prepared)
  {
    var prepared := PrepareScript(p, cache, at, scope, script).value;
    if !Hits(p, cache, at, scope, script) {
      MissShape(p, cache, at, scope, script);
      assert Evaluates(p, at, script, prepared.pending);
      if prepared.cacheState.Ok? && prepared.cacheState.value.Some? {
        assert GenuineFor(p, prepared.cacheState.value.value.bytes, at, scope, script, prepared.pending);
      }
    }
  }

  // What a load recovers for the root project was committed by it.
  lemma RecoveredOwned(p: Platform, cache: Contents, at: Setting, script: FileKey, history: Outputs)
    requires OwnedIndex(p, cache, history)
    requires LoadCached(p, cache, at, Root, script).Some?
    ensures Items(LoadCached(p, cache, at, Root, script).value.generated) <= history
  {
    var cached := LoadCached(p, cache, at, Root, script).value;
    CompleteRecovery(p, cache, at, Root, script);
    var bytes := cache.index[(State, StateProvenance(Root, script))].content;
    assert OwnedRecord(p, bytes, history);
    assert RecordedOutputs(cached.state) <= history;
    forall key | key in cached.generated
      ensures (key, cached.generated[key]) in history
    {
      var i :| 0 <= i < |cached.state.outputs| && cached.state.outputs[i] == (key, Of(cached.generated[key]));
      assert (cached.state.outputs[i].0, cached.state.outputs[i].1.content) in RecordedOutputs(cached.state);
    }
  }

  lemma PreparedOwned(p: Platform, cache: Contents, at: Setting, script: FileKey, history: Outputs)
    requires OwnedIndex(p, cache, history) && AllEngineWrote(p, history)
    requires script in at.files && OwnManifest(p, at)
    requires PrepareScript(p, cache, at, Root, script).Ok?
    ensures var prepared := PrepareScript(p, cache, at, Root, script).value;
      Items(prepared.recovered) <= history && AllEngineWrote(p, Items(prepared.pending.generated))
  {
    var prepared := PrepareScript(p, cache, at, Root, script).value;
    var loaded := LoadCached(p, cache, at, Root, script);
    if loaded.Some? {
      RecoveredOwned(p, cache, at, script, history);
    }
    if Hits(p, cache, at, Root, script) {
      assert prepared.pending.generated == loaded.value.generated;
    } else {
      MissShape(p, cache, at, Root, script);
      assert Evaluates(p, at, script, prepared.pending);
    }
  }

  lemma PrepareInScript(p: Platform, cache: Contents, files: Tree, scope: Scope, environment: Environment,
                        limits: Limits) returns (at: Setting, script: FileKey)
    requires var r := PrepareIn(p, cache, files, scope, environment, limits); r.Ok? && r.value.Some?
    ensures at.files == files && script in files && OwnManifest(p, at)
    ensures PrepareScript(p, cache, at, scope, script).Ok?
    ensures PrepareScript(p, cache, at, scope, script).value
         == PrepareIn(p, cache, files, scope, environment, limits).value.value
  {
    var manifest := p.manifestOf(ContentAt(files, MANIFEST_FILE));
    at := SettingOf(files, manifest, environment, limits);
    script := CheckScript(p, at, manifest.script.value).value;
  }

  // ---- Each step keeps the invariant ----

  lemma PrepareKeeps(p: Platform, w: World, environment: Environment, limits: Limits)
    requires Invariant(p, w)
    ensures Invariant(p, StepPrepare(p, w, environment, limits))
  {
    var r := PrepareIn(p, w.store.cache, w.store.files, Root, environment, limits);
    if r.Ok? && r.value.Some? {
      var at, script := PrepareInScript(p, w.store.cache, w.store.files, Root, environment, limits);
      PreparedRecord(p, w.store.cache, at, Root, script);
      PreparedOwned(p, w.store.cache, at, script, w.history);
    }
  }

  lemma DependencyKeeps(p: Platform, w: World, digest: Digest, files: Tree, environment: Environment,
                        limits: Limits)
    requires Invariant(p, w)
    ensures Invariant(p, StepDependency(p, w, digest, files, environment, limits))
  {
    var scope := Dependency(digest);
    var r := PrepareIn(p, w.store.cache, files, scope, environment, limits);
    if r.Ok? && r.value.Some? {
      var at, script := PrepareInScript(p, w.store.cache, files, scope, environment, limits);
      PreparedRecord(p, w.store.cache, at, scope, script);
      FlightJoins(p, SystemOf(w), Flight(r.value.value, 0), w.history);
    }
  }

  lemma CommitMoves(store: Store, expected: nat, changes: seq<Change>, succeeds: bool)
    ensures var r := Commit(store, expected, changes, succeeds);
      r.Ok? ==> expected == store.revision && r.value.cache == store.cache
                && (r.value.revision > store.revision || r.value == store)
  {
  }

  lemma PublishedOwned(p: Platform, w: World, prepared: Prepared)
    requires Invariant(p, w) && w.slot.Some? && w.slot.value.1 == prepared
    ensures var history := w.history + Items(prepared.pending.generated);
      && CacheSound(p, System(w.store.cache, w.flights + [Flight(prepared, 0)]), history)
      && AllEngineWrote(p, history)
  {
    var history := w.history + Items(prepared.pending.generated);
    CacheSoundGrows(p, SystemOf(w), w.history, history);
    FlightJoins(p, SystemOf(w), Flight(prepared, 0), history);
  }

  lemma PublishKeeps(p: Platform, w: World, host: seq<Change>, succeeds: bool)
    requires Invariant(p, w)
    ensures Invariant(p, StepPublish(w, host, succeeds))
  {
    if w.slot.Some? && Committed(w, host, succeeds).Ok? {
      var (view, prepared) := w.slot.value;
      CommitMoves(w.store, view.revision,
                  Combined(view.files, prepared.pending.generated, KnownOutputs(w.session, prepared.recovered), host),
                  succeeds);
      PublishedOwned(p, w, prepared);
    }
  }

  lemma OwnedGrows(p: Platform, cache: Contents, a: Outputs, b: Outputs)
    requires OwnedIndex(p, cache, a) && a <= b
    ensures OwnedIndex(p, cache, b)
  {
    forall key | key in cache.index && key.0.State?
      ensures OwnedRecord(p, cache.index[key].content, b)
    {
      assert OwnedRecord(p, cache.index[key].content, a);
    }
  }

  // A tree changed behind a prepared publication, under a new revision.
  lemma MovedKeeps(p: Platform, w: World, store: Store, session: Tree)
    requires Invariant(p, w) && store.cache == w.store.cache
    requires Items(session) <= w.history && SessionIsLast(session, w.last)
    requires store.revision > w.store.revision || store == w.store
    ensures Invariant(p, w.(store := store, session := session))
  {
  }

  lemma ClearMoves(store: Store, session: Tree, succeeds: bool)
    ensures var (after, owned, _) := Clear(store, session, succeeds);
      && after.cache == store.cache && (after.revision > store.revision || after == store)
      && (owned == session || owned == map[])
  {
  }

  lemma SessionKept(session: Tree, after: Tree, history: Outputs)
    requires Items(session) <= history && (after == session || after == map[])
    ensures Items(after) <= history
  {
  }

  lemma ClearKeeps(p: Platform, w: World, succeeds: bool)
    requires Invariant(p, w)
    ensures Invariant(p, StepClear(w, succeeds))
  {
    var (store, session, _) := Clear(w.store, w.session, succeeds);
    ClearMoves(w.store, w.session, succeeds);
    SessionKept(w.session, session, w.history);
    MovedKeeps(p, w, store, session);
  }

  lemma SystemKeeps(p: Platform, w: World, s: System)
    requires Invariant(p, w) && CacheSound(p, s, w.history)
    ensures Invariant(p, WithSystem(w, s))
  {
  }

  lemma DamageKeeps(p: Platform, w: World, entries: map<CacheKey, Bytes>, forgotten: set<IndexKey>)
    requires Invariant(p, w)
    ensures Invariant(p, Step(p, w, Damage(entries, forgotten)))
  {
    var index := w.store.cache.index - forgotten;
    assert forall key <- index :: key in w.store.cache.index && index[key] == w.store.cache.index[key];
  }

  lemma StepKeeps(p: Platform, w: World, e: Event)
    requires p.Faithful() && Invariant(p, w)
    ensures Invariant(p, Step(p, w, e))
  {
    match e
    case PrepareRoot(environment, limits) => PrepareKeeps(p, w, environment, limits);
    case PublishRoot(host, succeeds) => PublishKeeps(p, w, host, succeeds);
    case BeginDependency(digest, files, environment, limits) =>
      DependencyKeeps(p, w, digest, files, environment, limits);
    case Advance(i) =>
      AdvancedSound(p, SystemOf(w), i, w.history);
      SystemKeeps(p, w, Advanced(SystemOf(w), i));
    case Crash(i) =>
      StoppedSound(p, SystemOf(w), i, w.history);
      SystemKeeps(p, w, Stopped(SystemOf(w), i));
    case ClearRoot(succeeds) => ClearKeeps(p, w, succeeds);
    case Edit(files) =>
    case Restart =>
    case Damage(entries, forgotten) => DamageKeeps(p, w, entries, forgotten);
  }

  lemma {:induction false} RunAllKeeps(p: Platform, w: World, events: seq<Event>)
    requires p.Faithful() && Invariant(p, w)
    ensures Invariant(p, RunAll(p, w, events))
    decreases |events|
  {
    if events != [] {
      StepKeeps(p, w, events[0]);
      RunAllKeeps(p, Step(p, w, events[0]), events[1..]);
    }
  }

  // ---- Main results ----

  // A world some run of some project leads to.
  ghost predicate Reachable(p: Platform, w: World) {
    exists start, events :: w == RunAll(p, Initial(start), events)
  }

  lemma ReachableKeeps(p: Platform, w: World)
    requires p.Faithful() && Reachable(p, w)
    ensures Invariant(p, w)
  {
    var start, events :| w == RunAll(p, Initial(start), events);
    RunAllKeeps(p, Initial(start), events);
  }

  // In every reachable world, preparing any project answers exactly as evaluating it would.
  lemma CacheRefinesEvaluation(p: Platform, w: World, files: Tree, scope: Scope, environment: Environment,
                               limits: Limits)
    requires p.Faithful() && Honest(p) && Reachable(p, w)
    ensures Answer(PrepareIn(p, w.store.cache, files, scope, environment, limits))
         == Uncached(p, files, p.manifestOf(ContentAt(files, MANIFEST_FILE)), environment, limits)
  {
    ReachableKeeps(p, w);
    PreparationRefines(p, w.store.cache, files, scope, environment, limits);
  }

  // In no reachable world is a project served from the cache while its evaluation tracks two inverted
  // files.
  lemma InvertedNeverHits(p: Platform, w: World, at: Setting, scope: Scope, script: FileKey, pending: Pending,
                          a: FileKey, b: FileKey)
    requires p.Faithful() && Honest(p) && Reachable(p, w)
    requires Evaluates(p, at, script, pending)
    requires var tracked := Tracked(at.files, at.classesDir, pending.directives.rerunFiles);
      a in tracked && b in tracked && Inverted(a, b)
    ensures !Hits(p, w.store.cache, at, scope, script)
  {
    ReachableKeeps(p, w);
    InvertedMisses(p, w.store.cache, at, scope, script, pending, a, b);
  }

  // ---- A persist left alone ----

  function Advances(i: nat, n: nat): seq<Event> {
    if n == 0 then [] else [Advance(i)] + Advances(i, n - 1)
  }

  function Iterate<S>(f: S -> S, s: S, n: nat): S
    decreases n
  {
    if n == 0 then s else Iterate(f, f(s), n - 1)
  }

  function Advancer(i: nat): System -> System {
    s => Advanced(s, i)
  }

  lemma AdvanceEvent(p: Platform, w: World, i: nat)
    ensures Step(p, w, Advance(i)) == WithSystem(w, Advanced(SystemOf(w), i))
  {
  }

  lemma FirstAdvance(p: Platform, w: World, i: nat, n: nat, next: World)
    requires n > 0 && next == WithSystem(w, Advanced(SystemOf(w), i))
    ensures RunAll(p, w, Advances(i, n)) == RunAll(p, next, Advances(i, n - 1))
  {
    assert Advances(i, n)[0] == Advance(i) && Advances(i, n)[1..] == Advances(i, n - 1);
    AdvanceEvent(p, w, i);
  }

  lemma SystemReplaced(w: World, s: System, t: System)
    ensures SystemOf(WithSystem(w, s)) == s && WithSystem(WithSystem(w, s), t) == WithSystem(w, t)
    ensures WithSystem(w, SystemOf(w)) == w
  {
  }

  // One step and then the rest, with what they come to as parameters.
  lemma AdvancesJoin(w: World, i: nat, n: nat, f: System -> System, first: World, after: World)
    requires n > 0 && first == WithSystem(w, f(SystemOf(w)))
    requires after == WithSystem(first, Iterate(f, SystemOf(first), n - 1))
    ensures after == WithSystem(w, Iterate(f, SystemOf(w), n))
  {
    SystemReplaced(w, f(SystemOf(w)), Iterate(f, SystemOf(first), n - 1));
  }

  lemma {:induction false} AdvancesStep(p: Platform, w: World, f: System -> System, i: nat, n: nat)
    requires f == Advancer(i)
    ensures RunAll(p, w, Advances(i, n)) == WithSystem(w, Iterate(f, SystemOf(w), n))
    decreases n
  {
    if n == 0 {
      SystemReplaced(w, SystemOf(w), SystemOf(w));
    } else {
      var first := WithSystem(w, f(SystemOf(w)));
      FirstAdvance(p, w, i, n, first);
      AdvancesStep(p, first, f, i, n - 1);
      AdvancesJoin(w, i, n, f, first, RunAll(p, first, Advances(i, n - 1)));
    }
  }

  lemma {:induction false} Grounded<S>(f: S -> S, s: S, n: nat)
    requires f(s) == s
    ensures Iterate(f, s, n) == s
    decreases n
  {
    if n > 0 {
      Grounded(f, s, n - 1);
    }
  }

  // A run of operations, from the `done`-th on.
  function RunOn(cache: Contents, ops: seq<Op>, done: nat, n: nat): Contents
    decreases n
  {
    if n == 0 || done >= |ops| || Perform(cache, ops[done]).Err? then cache
    else RunOn(Perform(cache, ops[done]).value, ops, done + 1, n - 1)
  }

  lemma {:induction false} RunFrom(cache: Contents, ops: seq<Op>, done: nat, n: nat)
    requires done <= |ops|
    ensures RunOn(cache, ops, done, n) == Run(cache, ops[done..], n).0
    decreases n
  {
    if n > 0 && done < |ops| {
      var rest := ops[done..];
      assert rest[0] == ops[done] && rest[1..] == ops[done + 1..];
      if Perform(cache, ops[done]).Ok? {
        RunFrom(Perform(cache, ops[done]).value, ops, done + 1, n - 1);
      }
    }
  }

  // A list of persists whose last is this one.
  function Ending(cache: Contents, others: seq<Flight>, prepared: Prepared, done: nat): System {
    System(cache, others + [Flight(prepared, done)])
  }

  // The same list an operation of that persist later.
  function OneOn(cache: Contents, others: seq<Flight>, prepared: Prepared, ops: seq<Op>, done: nat): System
    requires done < |ops|
  {
    var step := Perform(cache, ops[done]);
    if step.Ok? then Ending(step.value, others, prepared, done + 1) else System(cache, others)
  }

  // That is what `f` does to such lists.
  ghost predicate Drives(f: System -> System, others: seq<Flight>, prepared: Prepared, ops: seq<Op>) {
    && (forall cache, done: nat | done < |ops| ::
          f(Ending(cache, others, prepared, done)) == OneOn(cache, others, prepared, ops, done))
    && (forall cache :: f(Ending(cache, others, prepared, |ops|)) == Ending(cache, others, prepared, |ops|))
    && (forall cache :: f(System(cache, others)) == System(cache, others))
  }

  lemma LastOf<T>(init: seq<T>, last: T, other: T)
    ensures var s := init + [last];
      && s[|init|] == last && s[..|init|] + s[|init| + 1..] == init && s[|init| := other] == init + [other]
  {
  }

  lemma AfterLast(cache: Contents, others: seq<Flight>, f: Flight, step: Result<Contents, CacheError>)
    ensures AfterOp(System(cache, others + [f]), |others|, step) ==
      if step.Ok? then System(step.value, others + [f.(done := f.done + 1)]) else System(cache, others)
  {
    LastOf(others, f, f.(done := f.done + 1));
  }

  lemma AdvanceLast(cache: Contents, others: seq<Flight>, prepared: Prepared, ops: seq<Op>, done: nat)
    requires ops == PersistOps(prepared) && done < |ops|
    ensures Advanced(Ending(cache, others, prepared, done), |others|) == OneOn(cache, others, prepared, ops, done)
  {
    var s := Ending(cache, others, prepared, done);
    assert s.flights[|others|] == Flight(prepared, done);
    AfterLast(cache, others, Flight(prepared, done), Perform(cache, ops[done]));
  }

  lemma AdvancerDrives(others: seq<Flight>, prepared: Prepared)
    ensures Drives(Advancer(|others|), others, prepared, PersistOps(prepared))
  {
    forall cache, done: nat | done < |PersistOps(prepared)|
      ensures Advancer(|others|)(Ending(cache, others, prepared, done))
           == OneOn(cache, others, prepared, PersistOps(prepared), done)
    {
      AdvanceLast(cache, others, prepared, PersistOps(prepared), done);
    }
  }

  // Advanced `n` times with nothing in between, the last persist of a list leaves the cache a run of
  // its remaining operations leaves.
  lemma {:induction false} FlownAlone(f: System -> System, cache: Contents, others: seq<Flight>, prepared: Prepared,
                                      ops: seq<Op>, done: nat, n: nat)
    requires Drives(f, others, prepared, ops) && done <= |ops|
    ensures Iterate(f, Ending(cache, others, prepared, done), n).cache == RunOn(cache, ops, done, n)
    decreases n
  {
    if n > 0 {
      if done == |ops| {
        Grounded(f, Ending(cache, others, prepared, done), n);
      } else if Perform(cache, ops[done]).Ok? {
        FlownAlone(f, Perform(cache, ops[done]).value, others, prepared, ops, done + 1, n - 1);
      } else {
        Grounded(f, System(cache, others), n - 1);
      }
    }
  }

  // A persist that has just begun, alone, is the whole persist.
  lemma BegunAlone(p: Platform, w: World, others: seq<Flight>, prepared: Prepared, budget: nat)
    requires w.flights == others + [Flight(prepared, 0)]
    ensures var after := RunAll(p, w, Advances(|others|, budget));
      && after.store == w.store.(cache := Persist(w.store.cache, prepared, budget).0)
      && after.session == w.session
  {
    var ops := PersistOps(prepared);
    AdvancesStep(p, w, Advancer(|others|), |others|, budget);
    AdvancerDrives(others, prepared);
    FlownAlone(Advancer(|others|), w.store.cache, others, prepared, ops, 0, budget);
    RunFrom(w.store.cache, ops, 0, budget);
    assert ops[0..] == ops;
    UnrecordedRuns(w.store.cache, prepared, budget);
  }

  lemma RunFirst(p: Platform, w: World, first: Event, rest: seq<Event>, next: World)
    requires next == Step(p, w, first)
    ensures RunAll(p, w, [first] + rest) == RunAll(p, next, rest)
  {
    assert ([first] + rest)[0] == first && ([first] + rest)[1..] == rest;
  }

  // A publish followed by its own persist alone is the whole publish.
  lemma PublishAlone(p: Platform, w: World, host: seq<Change>, succeeds: bool, budget: nat)
    requires w.slot.Some? && Committed(w, host, succeeds).Ok?
    ensures var (view, prepared) := w.slot.value;
      var after := RunAll(p, w, [PublishRoot(host, succeeds)] + Advances(|w.flights|, budget));
      var (store, session, r) := Publish(w.store, w.session, view, prepared, host, succeeds, budget);
      r.Ok? && after.store == store && after.session == session
  {
    var next := Step(p, w, PublishRoot(host, succeeds));
    RunFirst(p, w, PublishRoot(host, succeeds), Advances(|w.flights|, budget), next);
    BegunAlone(p, next, w.flights, w.slot.value.1, budget);
  }

  lemma UnrecordedRuns(cache: Contents, prepared: Prepared, budget: nat)
    ensures Persist(cache, prepared, budget).0 == Run(cache, PersistOps(prepared), budget).0
  {
  }

  // So is a dependency's.
  lemma DependencyAlone(p: Platform, w: World, digest: Digest, files: Tree, environment: Environment, limits: Limits,
                        budget: nat)
    requires var r := PrepareIn(p, w.store.cache, files, Dependency(digest), environment, limits);
      r.Ok? && r.value.Some?
    ensures var prepared := PrepareIn(p, w.store.cache, files, Dependency(digest), environment, limits).value.value;
      var begin := BeginDependency(digest, files, environment, limits);
      var after := RunAll(p, w, [begin] + Advances(|w.flights|, budget));
      && after.store == w.store.(cache := Persist(w.store.cache, prepared, budget).0)
      && after.session == w.session
  {
    var r := PrepareIn(p, w.store.cache, files, Dependency(digest), environment, limits);
    var begin := BeginDependency(digest, files, environment, limits);
    DependencyEvent(p, w, digest, files, environment, limits);
    RunFirst(p, w, begin, Advances(|w.flights|, budget), Launched(w, r));
    BegunAlone(p, Launched(w, r), w.flights, r.value.value, budget);
  }

  lemma DependencyEvent(p: Platform, w: World, digest: Digest, files: Tree, environment: Environment, limits: Limits)
    ensures Step(p, w, BeginDependency(digest, files, environment, limits))
         == Launched(w, PrepareIn(p, w.store.cache, files, Dependency(digest), environment, limits))
  {
  }

  // What the host and the user may do to a project: its files become any files, its cache holds any
  // entries and indexes any part of what it did, a restart forgets the session, a crash ends one persist.
  lemma EventsHappen(p: Platform, w: World, files: Tree, entries: map<CacheKey, Bytes>, forgotten: set<IndexKey>,
                     before: seq<Flight>, ended: Flight, after: seq<Flight>)
    requires w.flights == before + [ended] + after
    ensures Step(p, w, Edit(files)).store.files == files
    ensures var damaged := Step(p, w, Damage(entries, forgotten)).store.cache;
      damaged.entries == entries && damaged.index == w.store.cache.index - forgotten
    ensures Step(p, w, Restart).session == map[] && Step(p, w, Restart).slot == None
    ensures Step(p, w, Restart).store.cache == w.store.cache && Step(p, w, Restart).flights == w.flights
    ensures Step(p, w, Crash(|before|)).flights == before + after
  {
    assert w.flights[..|before|] == before && w.flights[|before| + 1..] == after;
  }
}
