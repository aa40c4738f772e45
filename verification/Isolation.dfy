// Scope isolation: projects sharing one cache under distinct scopes cannot observe each other, however
// their preparations and the single operations of their persists interleave.
module Isolation {
  import opened Text
  import opened Paths
  import opened Identity
  import opened Cache
  import opened Model
  import opened Fingerprint
  import opened Preparation
  import opened Publication
  import opened Runs
  import opened Flights

  // One project's preparation against the shared cache.
  datatype Build = Build(scope: Scope, files: Tree, environment: Environment, limits: Limits)

  // A preparation, one backend operation of a persist its scope has under way, or the end of one.
  datatype Event = Begin(build: Build) | Advance(scope: Scope, i: nat) | Crash(scope: Scope, i: nat)

  // What an event shows its project.
  datatype Seen = Answered(result: Result<Option<Prepared>, Error>) | Persisted(error: Option<CacheError>)

  function ScopeOf(e: Event): Scope {
    match e
    case Begin(b) => b.scope
    case Advance(scope, _) => scope
    case Crash(scope, _) => scope
  }

  function Outcome(p: Platform, cache: Contents, b: Build): Result<Option<Prepared>, Error> {
    PrepareIn(p, cache, b.files, b.scope, b.environment, b.limits)
  }

  function ErrorOf(step: Result<Contents, CacheError>): Option<CacheError> {
    match step
    case Ok(_) => None
    case Err(error) => Some(error)
  }

  // A step of one scope on the cache it sees and the persists it has under way.
  function StepLocal(p: Platform, l: System, e: Event): (System, seq<Seen>) {
    match e
    case Begin(b) =>
      var r := Outcome(p, l.cache, b);
      (if r.Ok? && r.value.Some? then l.(flights := l.flights + [Flight(r.value.value, 0)]) else l, [Answered(r)])
    case Advance(_, i) =>
      if i >= |l.flights| || l.flights[i].done >= |PersistOps(l.flights[i].prepared)| then (l, [])
      else
        var step := Perform(l.cache, PersistOps(l.flights[i].prepared)[l.flights[i].done]);
        (AfterOp(l, i, step), [Persisted(ErrorOf(step))])
    case Crash(_, i) => (Stopped(l, i), [])
  }

  // One cache, and every scope's persists.
  datatype Shared = Shared(cache: Contents, flights: map<Scope, seq<Flight>>)

  function FlightsOf(s: Shared, scope: Scope): seq<Flight> {
    if scope in s.flights then s.flights[scope] else []
  }

  function StepShared(p: Platform, s: Shared, e: Event): (Shared, seq<Seen>) {
    var scope := ScopeOf(e);
    var (l, seen) := StepLocal(p, System(s.cache, FlightsOf(s, scope)), e);
    (Shared(l.cache, s.flights[scope := l.flights]), seen)
  }

  // What the project under `scope` sees, in order, when all of `events` happen over one cache.
  function Observations(p: Platform, s: Shared, events: seq<Event>, scope: Scope): seq<Seen>
    decreases |events|
  {
    if events == [] then []
    else
      var (next, seen) := StepShared(p, s, events[0]);
      (if ScopeOf(events[0]) == scope then seen else []) + Observations(p, next, events[1..], scope)
  }

  // The events of one scope alone.
  function Only(events: seq<Event>, scope: Scope): seq<Event>
    decreases |events|
  {
    if events == [] then []
    else (if ScopeOf(events[0]) == scope then [events[0]] else []) + Only(events[1..], scope)
  }

  // ---- The part of a cache one scope can reach ----

  function Visible(cache: Contents, scope: Scope): Contents {
    Contents(map key <- cache.entries | BelongsTo(key.provenance, scope) :: cache.entries[key],
             map key <- cache.index | BelongsTo(key.1, scope) :: cache.index[key])
  }

  lemma LookupVisible(cache: Contents, scope: Scope, key: CacheKey, maxBytes: nat)
    requires BelongsTo(key.provenance, scope)
    ensures LookupBounded(Visible(cache, scope), key, maxBytes) == LookupBounded(cache, key, maxBytes)
  {
  }

  lemma {:induction false} RecoverVisible(cache: Contents, scope: Scope, script: FileKey, limits: Limits,
                                          complete: bool,
                                          outputs: seq<(FileKey, Digest)>)
    ensures Recover(Visible(cache, scope), scope, script, limits, complete, outputs)
         == Recover(cache, scope, script, limits, complete, outputs)
    decreases |outputs|
  {
    if outputs != [] {
      var last := |outputs| - 1;
      RecoverVisible(cache, scope, script, limits, complete, outputs[..last]);
      OwnKeys(scope, script, outputs[last].0);
      LookupVisible(cache, scope, OutputKeyFor(scope, script, outputs[last]), limits.maxOutputFileSize);
    }
  }

  lemma StateVisible(p: Platform, cache: Contents, scope: Scope, script: FileKey, limits: Limits)
    ensures ReadState(p, Visible(cache, scope), scope, script, limits) == ReadState(p, cache, scope, script, limits)
  {
    OwnKeys(scope, script, script);
    var provenance := StateProvenance(scope, script);
    assert BelongsTo(provenance, scope);
    var key := IndexedKey(cache, State, provenance);
    assert IndexedKey(Visible(cache, scope), State, provenance) == key;
    if key.Some? {
      LookupVisible(cache, scope, key.value, limits.maxCacheStateSize);
    }
  }

  lemma LoadVisible(p: Platform, cache: Contents, at: Setting, scope: Scope, script: FileKey)
    ensures LoadCached(p, Visible(cache, scope), at, scope, script) == LoadCached(p, cache, at, scope, script)
  {
    StateVisible(p, cache, scope, script, at.limits);
    var state := ReadState(p, cache, scope, script, at.limits);
    if state.Some? {
      RecoverVisible(cache, scope, script, at.limits, StateWithinLimits(p, state.value, at.limits),
                     state.value.outputs);
    }
  }

  lemma OutcomeVisible(p: Platform, cache: Contents, b: Build)
    ensures Outcome(p, Visible(cache, b.scope), b) == Outcome(p, cache, b)
  {
    var manifest := p.manifestOf(ContentAt(b.files, MANIFEST_FILE));
    var at := SettingOf(b.files, manifest, b.environment, b.limits);
    if manifest.script.Some? {
      var checked := CheckScript(p, at, manifest.script.value);
      if checked.Ok? {
        LoadVisible(p, cache, at, b.scope, checked.value);
      }
    }
  }

  // ---- Operations stay within their scope ----

  predicate OpWithin(op: Op, scope: Scope) {
    BelongsTo(op.key.provenance, scope)
  }

  lemma VisibleAdded(cache: Contents, key: CacheKey, bytes: Bytes, scope: Scope)
    requires BelongsTo(key.provenance, scope)
    ensures key in Visible(cache, scope).entries <==> key in cache.entries
    ensures Visible(cache.(entries := cache.entries[key := bytes]), scope)
         == Visible(cache, scope).(entries := Visible(cache, scope).entries[key := bytes])
  {
  }

  lemma PublishOwn(cache: Contents, key: CacheKey, bytes: Bytes, scope: Scope)
    requires BelongsTo(key.provenance, scope)
    ensures PublishOnce(cache, key, bytes).Err? ==>
      PublishOnce(Visible(cache, scope), key, bytes) == PublishOnce(cache, key, bytes)
    ensures PublishOnce(cache, key, bytes).Ok? ==>
      PublishOnce(Visible(cache, scope), key, bytes) == Ok(Visible(PublishOnce(cache, key, bytes).value, scope))
  {
    VisibleAdded(cache, key, bytes, scope);
  }

  lemma RecordOwn(cache: Contents, key: CacheKey, scope: Scope)
    requires BelongsTo(key.provenance, scope)
    ensures RecordIndex(Visible(cache, scope), key) == Visible(RecordIndex(cache, key), scope)
  {
    assert RecordIndex(Visible(cache, scope), key).index == Visible(RecordIndex(cache, key), scope).index;
  }

  lemma PerformOwn(cache: Contents, op: Op, scope: Scope)
    requires OpWithin(op, scope)
    ensures Perform(cache, op).Err? ==> Perform(Visible(cache, scope), op) == Perform(cache, op)
    ensures Perform(cache, op).Ok? ==>
      Perform(Visible(cache, scope), op) == Ok(Visible(Perform(cache, op).value, scope))
  {
    match op
    case PublishArtifact(key, bytes) => PublishOwn(cache, key, bytes, scope);
    case RecordCurrent(key) => RecordOwn(cache, key, scope);
  }

  lemma PublishOther(cache: Contents, key: CacheKey, bytes: Bytes, scope: Scope)
    requires !BelongsTo(key.provenance, scope) && PublishOnce(cache, key, bytes).Ok?
    ensures Visible(PublishOnce(cache, key, bytes).value, scope) == Visible(cache, scope)
  {
    var a, b := Visible(PublishOnce(cache, key, bytes).value, scope), Visible(cache, scope);
    assert a.entries == b.entries;
  }

  lemma RecordOther(cache: Contents, key: CacheKey, scope: Scope)
    requires !BelongsTo(key.provenance, scope)
    ensures Visible(RecordIndex(cache, key), scope) == Visible(cache, scope)
  {
    assert Visible(RecordIndex(cache, key), scope).index == Visible(cache, scope).index;
  }

  lemma OutsideScope(provenance: Provenance, scope: Scope, other: Scope)
    requires BelongsTo(provenance, other) && scope != other
    ensures !BelongsTo(provenance, scope)
  {
    if BelongsTo(provenance, scope) {
      ScopesDisjoint(provenance, scope, other);
    }
  }

  lemma PerformOther(cache: Contents, op: Op, scope: Scope, other: Scope)
    requires OpWithin(op, other) && scope != other
    requires Perform(cache, op).Ok?
    ensures Visible(Perform(cache, op).value, scope) == Visible(cache, scope)
  {
    OutsideScope(op.key.provenance, scope, other);
    match op
    case PublishArtifact(key, bytes) => PublishOther(cache, key, bytes, scope);
    case RecordCurrent(key) => RecordOther(cache, key, scope);
  }

  lemma PersistOpsWithin(p: Platform, cache: Contents, b: Build)
    requires Outcome(p, cache, b).Ok? && Outcome(p, cache, b).value.Some?
    ensures forall op <- PersistOps(Outcome(p, cache, b).value.value) :: OpWithin(op, b.scope)
  {
    var prepared := Outcome(p, cache, b).value.value;
    var at, script := PrepareInScript(p, cache, b.files, b.scope, b.environment, b.limits);
    PreparedRecord(p, cache, at, b.scope, script);
    forall op | op in PersistOps(prepared) ensures OpWithin(op, b.scope) {
      OpOwn(prepared, op);
    }
  }

  lemma OutputOwn(prepared: Prepared, keys: seq<FileKey>, op: Op)
    requires forall key :: key in keys ==> key in prepared.pending.generated
    requires op in OutputPublications(prepared, keys)
    ensures OpWithin(op, prepared.scope)
  {
    var publications := OutputPublications(prepared, keys);
    var i :| 0 <= i < |publications| && publications[i] == op;
    assert op == OutputPublication(prepared, keys[i]);
    OwnKeys(prepared.scope, prepared.script, keys[i]);
  }

  lemma OpOwn(prepared: Prepared, op: Op)
    requires op in PersistOps(prepared)
    requires prepared.cacheState.Ok? && prepared.cacheState.value.Some? ==>
      prepared.cacheState.value.value.key.provenance == StateProvenance(prepared.scope, prepared.script)
    ensures OpWithin(op, prepared.scope)
  {
    var keys := SortedKeys(prepared.pending.generated.Keys);
    if op in OutputPublications(prepared, keys) {
      OutputOwn(prepared, keys, op);
    } else {
      assert op.key == prepared.cacheState.value.value.key;
      OwnKeys(prepared.scope, prepared.script, prepared.script);
    }
  }

  // ---- Events stay within their scope ----

  predicate FlightWithin(f: Flight, scope: Scope) {
    forall op <- PersistOps(f.prepared) :: OpWithin(op, scope)
  }

  predicate AllWithin(flights: seq<Flight>, scope: Scope) {
    forall f <- flights :: FlightWithin(f, scope)
  }

  predicate Within(s: Shared) {
    forall scope <- s.flights :: AllWithin(s.flights[scope], scope)
  }

  lemma WithinAdded(flights: seq<Flight>, f: Flight, scope: Scope)
    requires AllWithin(flights, scope) && FlightWithin(f, scope)
    ensures AllWithin(flights + [f], scope)
  {
  }

  lemma WithinUpdated(flights: seq<Flight>, i: nat, f: Flight, scope: Scope)
    requires AllWithin(flights, scope) && FlightWithin(f, scope) && i < |flights|
    ensures AllWithin(flights[i := f], scope)
  {
  }

  lemma WithinRemoved(flights: seq<Flight>, i: nat, scope: Scope)
    requires AllWithin(flights, scope) && i < |flights|
    ensures AllWithin(flights[..i] + flights[i + 1..], scope)
  {
    assert forall f <- flights[..i] + flights[i + 1..] :: f in flights;
  }

  lemma AfterWithin(l: System, i: nat, step: Result<Contents, CacheError>, scope: Scope)
    requires AllWithin(l.flights, scope) && i < |l.flights|
    ensures AllWithin(AfterOp(l, i, step).flights, scope)
  {
    var f := l.flights[i];
    var next := f.(done := f.done + 1);
    assert f in l.flights && FlightWithin(f, scope);
    assert next.prepared == f.prepared && FlightWithin(next, scope);
    WithinUpdated(l.flights, i, next, scope);
    WithinRemoved(l.flights, i, scope);
  }

  lemma AdvanceWithin(p: Platform, l: System, scope: Scope, i: nat)
    requires AllWithin(l.flights, scope) && i < |l.flights|
    ensures AllWithin(StepLocal(p, l, Event.Advance(scope, i)).0.flights, scope)
  {
    if l.flights[i].done < |PersistOps(l.flights[i].prepared)| {
      AfterWithin(l, i, Perform(l.cache, PersistOps(l.flights[i].prepared)[l.flights[i].done]), scope);
    }
  }

  lemma StepWithin(p: Platform, l: System, e: Event)
    requires AllWithin(l.flights, ScopeOf(e))
    ensures AllWithin(StepLocal(p, l, e).0.flights, ScopeOf(e))
  {
    match e
    case Begin(b) =>
      var r := Outcome(p, l.cache, b);
      if r.Ok? && r.value.Some? {
        PersistOpsWithin(p, l.cache, b);
        WithinAdded(l.flights, Flight(r.value.value, 0), b.scope);
      }
    case Advance(scope, i) =>
      if i < |l.flights| {
        AdvanceWithin(p, l, scope, i);
      }
    case Crash(scope, i) =>
      if i < |l.flights| {
        WithinRemoved(l.flights, i, scope);
      }
  }

  // A step reads and writes only what its scope can reach.
  function VisibleResult(r: Result<Contents, CacheError>, scope: Scope): Result<Contents, CacheError> {
    match r
    case Ok(cache) => Ok(Visible(cache, scope))
    case Err(error) => Err(error)
  }

  lemma OwnFlight(cache: Contents, f: Flight, flights: seq<Flight>, scope: Scope)
    requires f in flights && AllWithin(flights, scope) && f.done < |PersistOps(f.prepared)|
    ensures Perform(Visible(cache, scope), PersistOps(f.prepared)[f.done])
         == VisibleResult(Perform(cache, PersistOps(f.prepared)[f.done]), scope)
  {
    assert FlightWithin(f, scope);
    PerformOwn(cache, PersistOps(f.prepared)[f.done], scope);
  }

  lemma BeginVisible(p: Platform, l: System, b: Build)
    ensures var (after, seen) := StepLocal(p, l, Event.Begin(b));
      StepLocal(p, System(Visible(l.cache, b.scope), l.flights), Event.Begin(b))
        == (System(Visible(after.cache, b.scope), after.flights), seen)
  {
    OutcomeVisible(p, l.cache, b);
  }

  lemma AfterVisible(l: System, i: nat, step: Result<Contents, CacheError>, scope: Scope)
    requires i < |l.flights|
    ensures var after := AfterOp(l, i, step);
      AfterOp(System(Visible(l.cache, scope), l.flights), i, VisibleResult(step, scope))
        == System(Visible(after.cache, scope), after.flights)
    ensures ErrorOf(VisibleResult(step, scope)) == ErrorOf(step)
  {
  }

  lemma AdvanceVisible(p: Platform, l: System, scope: Scope, i: nat)
    requires AllWithin(l.flights, scope)
    ensures var (after, seen) := StepLocal(p, l, Event.Advance(scope, i));
      StepLocal(p, System(Visible(l.cache, scope), l.flights), Event.Advance(scope, i))
        == (System(Visible(after.cache, scope), after.flights), seen)
  {
    if i < |l.flights| && l.flights[i].done < |PersistOps(l.flights[i].prepared)| {
      var f := l.flights[i];
      OwnFlight(l.cache, f, l.flights, scope);
      AfterVisible(l, i, Perform(l.cache, PersistOps(f.prepared)[f.done]), scope);
    }
  }

  lemma StepVisible(p: Platform, l: System, e: Event, scope: Scope)
    requires ScopeOf(e) == scope && AllWithin(l.flights, scope)
    ensures var (after, seen) := StepLocal(p, l, e);
      StepLocal(p, System(Visible(l.cache, scope), l.flights), e)
        == (System(Visible(after.cache, scope), after.flights), seen)
  {
    match e
    case Begin(b) => BeginVisible(p, l, b);
    case Advance(_, i) => AdvanceVisible(p, l, scope, i);
    case Crash(_, _) =>
  }

  // A step of another scope leaves what this one can reach alone.
  lemma StepOther(p: Platform, l: System, e: Event, scope: Scope)
    requires ScopeOf(e) != scope && AllWithin(l.flights, ScopeOf(e))
    ensures Visible(StepLocal(p, l, e).0.cache, scope) == Visible(l.cache, scope)
  {
    match e
    case Begin(_) =>
    case Advance(other, i) =>
      if i < |l.flights| && l.flights[i].done < |PersistOps(l.flights[i].prepared)| {
        var f := l.flights[i];
        assert f in l.flights && FlightWithin(f, other);
        var op := PersistOps(f.prepared)[f.done];
        if Perform(l.cache, op).Ok? {
          PerformOther(l.cache, op, scope, other);
        }
      }
    case Crash(_, _) =>
  }

  lemma SharedWithin(p: Platform, s: Shared, e: Event)
    requires Within(s)
    ensures Within(StepShared(p, s, e).0)
  {
    StepWithin(p, System(s.cache, FlightsOf(s, ScopeOf(e))), e);
  }

  // ---- Main result ----

  // What one scope can tell two states apart by.
  predicate Alike(s: Shared, t: Shared, scope: Scope) {
    Visible(s.cache, scope) == Visible(t.cache, scope) && FlightsOf(s, scope) == FlightsOf(t, scope)
  }

  lemma OwnStep(p: Platform, s: Shared, t: Shared, e: Event)
    requires Within(s) && Within(t) && Alike(s, t, ScopeOf(e))
    ensures StepShared(p, s, e).1 == StepShared(p, t, e).1
    ensures Alike(StepShared(p, s, e).0, StepShared(p, t, e).0, ScopeOf(e))
  {
    var scope := ScopeOf(e);
    var flights := FlightsOf(s, scope);
    StepVisible(p, System(s.cache, flights), e, scope);
    StepVisible(p, System(t.cache, flights), e, scope);
  }

  lemma OtherStep(p: Platform, s: Shared, t: Shared, e: Event, scope: Scope)
    requires Within(s) && Alike(s, t, scope) && ScopeOf(e) != scope
    ensures Alike(StepShared(p, s, e).0, t, scope)
  {
    StepOther(p, System(s.cache, FlightsOf(s, ScopeOf(e))), e, scope);
  }

  lemma {:induction false} ObservesAlike(p: Platform, s: Shared, t: Shared, events: seq<Event>, scope: Scope)
    requires Within(s) && Within(t) && Alike(s, t, scope)
    ensures Observations(p, s, events, scope) == Observations(p, t, Only(events, scope), scope)
    decreases |events|
  {
    if events != [] {
      var e, rest := events[0], events[1..];
      SharedWithin(p, s, e);
      if ScopeOf(e) == scope {
        SharedWithin(p, t, e);
        OwnStep(p, s, t, e);
        ObservesAlike(p, StepShared(p, s, e).0, StepShared(p, t, e).0, rest, scope);
        assert Only(events, scope)[0] == e && Only(events, scope)[1..] == Only(rest, scope);
      } else {
        OtherStep(p, s, t, e, scope);
        ObservesAlike(p, StepShared(p, s, e).0, t, rest, scope);
        assert Only(events, scope) == Only(rest, scope);
        assert [] + Observations(p, StepShared(p, s, e).0, rest, scope)
            == Observations(p, StepShared(p, s, e).0, rest, scope);
      }
    }
  }

  // In any interleaving of preparations and persist operations over one cache, each scope sees
  // exactly what it would see with the cache to itself.
  lemma ScopesAreIsolated(p: Platform, events: seq<Event>, scope: Scope)
    ensures Observations(p, Shared(EMPTY, map[]), events, scope)
         == Observations(p, Shared(EMPTY, map[]), Only(events, scope), scope)
  {
    ObservesAlike(p, Shared(EMPTY, map[]), Shared(EMPTY, map[]), events, scope);
  }

  // ---- What a scope sees ----

  lemma ObservesFirst(p: Platform, s: Shared, e: Event, rest: seq<Event>, scope: Scope)
    ensures Observations(p, s, [e] + rest, scope) ==
      (if scope == ScopeOf(e) then StepShared(p, s, e).1 else []) + Observations(p, StepShared(p, s, e).0, rest, scope)
  {
    assert ([e] + rest)[0] == e && ([e] + rest)[1..] == rest;
  }

  // A preparation shows its own scope its answer and starts the persist of what it answered.
  lemma SeenOfBegin(p: Platform, s: Shared, b: Build, rest: seq<Event>, scope: Scope) returns (next: Shared)
    ensures var r := PrepareIn(p, s.cache, b.files, b.scope, b.environment, b.limits);
      && Observations(p, s, [Event.Begin(b)] + rest, scope) ==
           (if scope == b.scope then [Answered(r)] else []) + Observations(p, next, rest, scope)
      && next.cache == s.cache
      && FlightsOf(next, b.scope) ==
           FlightsOf(s, b.scope) + (if r.Ok? && r.value.Some? then [Flight(r.value.value, 0)] else [])
      && forall other :: other != b.scope ==> FlightsOf(next, other) == FlightsOf(s, other)
  {
    next := StepShared(p, s, Event.Begin(b)).0;
    ObservesFirst(p, s, Event.Begin(b), rest, scope);
    assert FlightsOf(s, b.scope) + [] == FlightsOf(s, b.scope);
  }

  // What an operation leaves of its scope's persists: one further, or, when it failed, one less.
  function Landed(flights: seq<Flight>, i: nat, ok: bool): seq<Flight>
    requires i < |flights|
  {
    if ok then flights[i := Flight(flights[i].prepared, flights[i].done + 1)] else flights[..i] + flights[i + 1..]
  }

  lemma AfterOpExactly(l: System, i: nat, step: Result<Contents, CacheError>)
    requires i < |l.flights|
    ensures AfterOp(l, i, step) == System(if step.Ok? then step.value else l.cache, Landed(l.flights, i, step.Ok?))
  {
  }

  // An operation shows its own scope whether it failed, and takes effect unless it did.
  lemma SeenOfAdvance(p: Platform, s: Shared, owner: Scope, i: nat, step: Result<Contents, CacheError>,
                      rest: seq<Event>, scope: Scope) returns (next: Shared)
    requires var flights := FlightsOf(s, owner);
      && i < |flights| && flights[i].done < |PersistOps(flights[i].prepared)|
      && step == Perform(s.cache, PersistOps(flights[i].prepared)[flights[i].done])
    ensures Observations(p, s, [Event.Advance(owner, i)] + rest, scope) ==
      (if scope == owner then [Persisted(if step.Err? then Some(step.error) else None)] else [])
      + Observations(p, next, rest, scope)
    ensures next == Shared(if step.Ok? then step.value else s.cache,
                           s.flights[owner := Landed(FlightsOf(s, owner), i, step.Ok?)])
  {
    var l := System(s.cache, FlightsOf(s, owner));
    AfterOpExactly(l, i, step);
    AdvanceShared(p, s, owner, i, l, step);
    next := Shared(AfterOp(l, i, step).cache, s.flights[owner := AfterOp(l, i, step).flights]);
    ObservesFirst(p, s, Event.Advance(owner, i), rest, scope);
  }

  lemma AdvanceShared(p: Platform, s: Shared, owner: Scope, i: nat, l: System, step: Result<Contents, CacheError>)
    requires l == System(s.cache, FlightsOf(s, owner)) && i < |l.flights|
    requires l.flights[i].done < |PersistOps(l.flights[i].prepared)|
    requires step == Perform(s.cache, PersistOps(l.flights[i].prepared)[l.flights[i].done])
    ensures StepShared(p, s, Event.Advance(owner, i)) ==
      (Shared(AfterOp(l, i, step).cache, s.flights[owner := AfterOp(l, i, step).flights]), [Persisted(ErrorOf(step))])
  {
  }
}
