// Crash-ordered persistence: any number of persists in flight, interleaved one backend operation at
// a time, each able to stop for good between any two.
module CrashSafety {
  import opened Text
  import opened Paths
  import opened Identity
  import opened Cache
  import opened Model
  import opened StateCodec
  import opened Preparation
  import opened Publication
  import opened Refinement
  import opened Flights
  import opened Runs

  datatype Action =
    | Begin(scope: Scope, files: Tree, environment: Environment, limits: Limits)
    | Advance(i: nat)
    | Crash(i: nat)

  function Next(p: Platform, s: System, a: Action): System {
    match a
    case Begin(scope, files, environment, limits) =>
      var r := PrepareIn(p, s.cache, files, scope, environment, limits);
      if r.Ok? && r.value.Some? then s.(flights := s.flights + [Flight(r.value.value, 0)]) else s
    case Advance(i) => Advanced(s, i)
    case Crash(i) => Stopped(s, i)
  }

  function Follow(p: Platform, s: System, actions: seq<Action>): System
    decreases |actions|
  {
    if actions == [] then s else Follow(p, Next(p, s, actions[0]), actions[1..])
  }

  // ---- The guarantee ----

  predicate Available(cache: Contents, key: CacheKey) {
    key in cache.entries && cache.entries[key] == key.content.content
  }

  predicate OutputsAvailable(cache: Contents, scope: Scope, script: FileKey, state: Decoded) {
    forall i :: 0 <= i < |state.outputs| ==> Available(cache, OutputKeyFor(scope, script, state.outputs[i]))
  }

  // The indexed state's own bytes are there, and so is every output it lists, for whichever project
  // it reads back.
  ghost predicate Backed(p: Platform, cache: Contents, provenance: Provenance, digest: Digest) {
    && Available(cache, CacheKey(State, provenance, digest))
    && forall scope, script | DecodeState(p, digest.content, scope, script).Some? ::
         OutputsAvailable(cache, scope, script, DecodeState(p, digest.content, scope, script).value)
  }

  ghost predicate IndexBacked(p: Platform, cache: Contents) {
    forall key <- cache.index | key.0.State? :: Backed(p, cache, key.1, cache.index[key])
  }

  // ---- The invariant behind it ----

  predicate PublishedPrefix(cache: Contents, ops: seq<Op>, done: nat) {
    && done <= |ops|
    && forall i :: 0 <= i < done && ops[i].PublishArtifact? ==>
         && ops[i].key in cache.entries && cache.entries[ops[i].key] == ops[i].bytes
         && Of(ops[i].bytes) == ops[i].key.content
  }

  predicate PublishedSoFar(cache: Contents, f: Flight) {
    PublishedPrefix(cache, PersistOps(f.prepared), f.done)
  }

  ghost predicate FlightOk(p: Platform, cache: Contents, f: Flight) {
    GenuineRecord(p, f.prepared) && PublishedSoFar(cache, f)
  }

  ghost predicate Consistent(p: Platform, s: System) {
    IndexBacked(p, s.cache) && FlightsOk(p, s.cache, s.flights)
  }

  ghost predicate FlightsOk(p: Platform, cache: Contents, flights: seq<Flight>) {
    forall f <- flights :: FlightOk(p, cache, f)
  }

  lemma BackedGrows(p: Platform, before: Contents, after: Contents, provenance: Provenance, digest: Digest)
    requires Keeps(before, after) && Backed(p, before, provenance, digest)
    ensures Backed(p, after, provenance, digest)
  {
    forall scope, script | DecodeState(p, digest.content, scope, script).Some?
      ensures OutputsAvailable(after, scope, script, DecodeState(p, digest.content, scope, script).value)
    {
      assert OutputsAvailable(before, scope, script, DecodeState(p, digest.content, scope, script).value);
    }
  }

  // When everything before the index entry has been published, the record is backed.
  lemma RecordBacked(p: Platform, cache: Contents, prepared: Prepared)
    requires p.Faithful() && GenuineRecord(p, prepared)
    requires prepared.cacheState.Ok? && prepared.cacheState.value.Some?
    requires PublishedSoFar(cache, Flight(prepared, |PersistOps(prepared)| - 1))
    ensures var key := prepared.cacheState.value.value.key;
      Backed(p, cache, key.provenance, key.content)
  {
    var record := prepared.cacheState.value.value;
    var ops := PersistOps(prepared);
    var keys := SortedKeys(prepared.pending.generated.Keys);
    assert ops[|keys|] == PublishArtifact(record.key, record.bytes);
    var at :| GenuineFor(p, record.bytes, at, prepared.scope, prepared.script, prepared.pending);
    forall scope, script | DecodeState(p, record.bytes, scope, script).Some?
      ensures OutputsAvailable(cache, scope, script, DecodeState(p, record.bytes, scope, script).value)
    {
      GenuineDecodes(p, record.bytes, at, prepared.scope, prepared.script, prepared.pending, scope, script);
      var outputs := DecodeState(p, record.bytes, scope, script).value.outputs;
      forall i | 0 <= i < |outputs|
        ensures Available(cache, OutputKeyFor(scope, script, outputs[i]))
      {
        assert ops[i] == OutputPublication(prepared, keys[i]);
      }
    }
  }

  lemma PerformKeeps(cache: Contents, op: Op)
    requires Perform(cache, op).Ok?
    ensures Keeps(cache, Perform(cache, op).value)
  {
  }

  lemma FlightsGrow(p: Platform, before: Contents, after: Contents, f: Flight)
    requires Keeps(before, after) && FlightOk(p, before, f)
    ensures FlightOk(p, after, f)
  {
  }

  // The index entry a persist is about to write is backed already.
  lemma IndexedBacked(p: Platform, cache: Contents, f: Flight)
    requires p.Faithful() && FlightOk(p, cache, f)
    requires f.done < |PersistOps(f.prepared)| && PersistOps(f.prepared)[f.done].RecordCurrent?
    ensures var key := PersistOps(f.prepared)[f.done].key;
      Backed(p, cache, key.provenance, key.content)
  {
    RecordedByPersist(f.prepared, PersistOps(f.prepared)[f.done].key);
    LastRecords(f.prepared, f.done);
    RecordBacked(p, cache, f.prepared);
  }

  lemma AdvanceBacked(p: Platform, s: System, i: nat)
    requires p.Faithful() && Consistent(p, s)
    requires i < |s.flights| && s.flights[i].done < |PersistOps(s.flights[i].prepared)|
    requires Perform(s.cache, PersistOps(s.flights[i].prepared)[s.flights[i].done]).Ok?
    ensures IndexBacked(p, Perform(s.cache, PersistOps(s.flights[i].prepared)[s.flights[i].done]).value)
  {
    var f := s.flights[i];
    var ops := PersistOps(f.prepared);
    var op := ops[f.done];
    var after := Perform(s.cache, op).value;
    assert f in s.flights && FlightOk(p, s.cache, f);
    PerformKeeps(s.cache, op);
    forall key | key in after.index && key.0.State?
      ensures Backed(p, after, key.1, after.index[key])
    {
      if op.RecordCurrent? && key == (op.key.namespace, op.key.provenance) {
        IndexedBacked(p, s.cache, f);
        BackedGrows(p, s.cache, after, key.1, after.index[key]);
      } else {
        BackedGrows(p, s.cache, after, key.1, s.cache.index[key]);
      }
    }
  }

  lemma LastRecords(prepared: Prepared, i: nat)
    requires i < |PersistOps(prepared)| && PersistOps(prepared)[i].RecordCurrent?
    ensures i == |PersistOps(prepared)| - 1
  {
  }

  lemma PrefixAdvances(cache: Contents, ops: seq<Op>, done: nat)
    requires PublishedPrefix(cache, ops, done) && done < |ops| && Perform(cache, ops[done]).Ok?
    ensures PublishedPrefix(Perform(cache, ops[done]).value, ops, done + 1)
  {
    PerformKeeps(cache, ops[done]);
  }

  lemma AllFlightsGrow(p: Platform, before: Contents, after: Contents, flights: seq<Flight>)
    requires Keeps(before, after) && FlightsOk(p, before, flights)
    ensures FlightsOk(p, after, flights)
  {
    forall f | f in flights ensures FlightOk(p, after, f) {
      FlightsGrow(p, before, after, f);
    }
  }

  lemma FlightsAfterStep(p: Platform, s: System, i: nat)
    requires Consistent(p, s)
    requires i < |s.flights| && s.flights[i].done < |PersistOps(s.flights[i].prepared)|
    requires Perform(s.cache, PersistOps(s.flights[i].prepared)[s.flights[i].done]).Ok?
    ensures var after := Perform(s.cache, PersistOps(s.flights[i].prepared)[s.flights[i].done]).value;
      FlightsOk(p, after, s.flights[i := s.flights[i].(done := s.flights[i].done + 1)])
  {
    var f := s.flights[i];
    var ops := PersistOps(f.prepared);
    assert f in s.flights && FlightOk(p, s.cache, f);
    var after := Perform(s.cache, ops[f.done]).value;
    PerformKeeps(s.cache, ops[f.done]);
    PrefixAdvances(s.cache, ops, f.done);
    AllFlightsGrow(p, s.cache, after, s.flights);
    UpdateMember(s.flights, i, f.(done := f.done + 1));
  }

  lemma AdvanceKeeps(p: Platform, s: System, i: nat, step: Result<Contents, CacheError>)
    requires p.Faithful() && Consistent(p, s)
    requires i < |s.flights| && s.flights[i].done < |PersistOps(s.flights[i].prepared)|
    requires step == Perform(s.cache, PersistOps(s.flights[i].prepared)[s.flights[i].done])
    ensures Consistent(p, AfterOp(s, i, step))
  {
    match step
    case Ok(_) =>
      AdvanceBacked(p, s, i);
      FlightsAfterStep(p, s, i);
    case Err(_) =>
      RemoveFlight(p, s.cache, s.flights, i);
  }

  lemma UpdateMember<T>(s: seq<T>, i: nat, x: T)
    requires i < |s|
    ensures forall y <- s[i := x] :: y == x || y in s
  {
  }

  lemma RemoveFlight(p: Platform, cache: Contents, flights: seq<Flight>, i: nat)
    requires i < |flights| && FlightsOk(p, cache, flights)
    ensures FlightsOk(p, cache, flights[..i] + flights[i + 1..])
  {
    assert forall f <- flights[..i] + flights[i + 1..] :: f in flights;
  }

  lemma NextKeeps(p: Platform, s: System, a: Action)
    requires p.Faithful() && Consistent(p, s)
    ensures Consistent(p, Next(p, s, a))
  {
    match a
    case Begin(scope, files, environment, limits) =>
      var r := PrepareIn(p, s.cache, files, scope, environment, limits);
      if r.Ok? && r.value.Some? {
        var at, script := PrepareInScript(p, s.cache, files, scope, environment, limits);
        PreparedRecord(p, s.cache, at, scope, script);
        assert FlightOk(p, s.cache, Flight(r.value.value, 0));
      }
    case Advance(i) =>
      if i < |s.flights| && s.flights[i].done < |PersistOps(s.flights[i].prepared)| {
        AdvanceKeeps(p, s, i, Perform(s.cache, PersistOps(s.flights[i].prepared)[s.flights[i].done]));
      }
    case Crash(i) =>
      if i < |s.flights| {
        RemoveFlight(p, s.cache, s.flights, i);
      }
  }

  lemma {:induction false} FollowKeeps(p: Platform, s: System, actions: seq<Action>)
    requires p.Faithful() && Consistent(p, s)
    ensures Consistent(p, Follow(p, s, actions))
    decreases |actions|
  {
    if actions != [] {
      NextKeeps(p, s, actions[0]);
      FollowKeeps(p, Next(p, s, actions[0]), actions[1..]);
    }
  }

  // However persists interleave and wherever they stop, every indexed state is backed.
  lemma EveryIndexedStateIsBacked(p: Platform, actions: seq<Action>)
    requires p.Faithful()
    ensures IndexBacked(p, Follow(p, System(EMPTY, []), actions).cache)
  {
    FollowKeeps(p, System(EMPTY, []), actions);
  }

  // ---- What the actions do ----

  function Advances(n: nat): seq<Action> {
    seq(n, i => Action.Advance(0))
  }

  lemma {:induction false} FollowAdvances(p: Platform, s: System, f: System -> System, n: nat)
    requires f == Advancer(0)
    ensures Follow(p, s, Advances(n)) == Iterate(f, s, n)
    decreases n
  {
    if n > 0 {
      assert Advances(n)[0] == Action.Advance(0) && Advances(n)[1..] == Advances(n - 1);
      assert Next(p, s, Action.Advance(0)) == f(s);
      FollowAdvances(p, f(s), f, n - 1);
    }
  }

  // A preparation's persist takes effect operation by operation, and after it stops it does nothing.
  lemma PersistFollows(p: Platform, cache: Contents, scope: Scope, files: Tree, environment: Environment,
                       limits: Limits, n: nat, m: nat)
    requires var r := PrepareIn(p, cache, files, scope, environment, limits); r.Ok? && r.value.Some?
    ensures var prepared := PrepareIn(p, cache, files, scope, environment, limits).value.value;
      var begun := Next(p, System(cache, []), Action.Begin(scope, files, environment, limits));
      && Follow(p, begun, Advances(n)).cache == Persist(cache, prepared, n).0
      && Follow(p, Next(p, begun, Action.Crash(0)), Advances(m)) == System(cache, [])
  {
    var prepared := PrepareIn(p, cache, files, scope, environment, limits).value.value;
    var begun := Next(p, System(cache, []), Action.Begin(scope, files, environment, limits));
    assert begun == Ending(cache, [], prepared, 0);
    FollowAdvances(p, begun, Advancer(0), n);
    AdvancerDrives([], prepared);
    FlownAlone(Advancer(0), cache, [], prepared, PersistOps(prepared), 0, n);
    RunFrom(cache, PersistOps(prepared), 0, n);
    assert PersistOps(prepared)[0..] == PersistOps(prepared);
    UnrecordedRuns(cache, prepared, n);
    Crashed(p, begun, m);
  }

  lemma Crashed(p: Platform, s: System, m: nat)
    requires |s.flights| == 1
    ensures Follow(p, Next(p, s, Action.Crash(0)), Advances(m)) == System(s.cache, [])
  {
    var stopped := Next(p, s, Action.Crash(0));
    assert stopped == System(s.cache, []) by {
      assert s.flights[..0] + s.flights[1..] == [];
    }
    FollowAdvances(p, stopped, Advancer(0), m);
    Grounded(Advancer(0), stopped, m);
  }
}
