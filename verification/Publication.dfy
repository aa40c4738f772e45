// Publishing a prepared script: reconcile generated files with the tree, commit against a revision,
// take ownership, then persist outputs, record, and index in that order.
module Publication {
  import opened Orders
  import opened Text
  import opened Paths
  import opened Identity
  import opened Cache
  import opened Model
  import opened Fingerprint
  import opened Preparation
  import opened Maps

  // ---- Changes and transactions ----

  datatype Change =
    | CreateFile(key: FileKey, bytes: Bytes)
    | ReplaceFile(key: FileKey, bytes: Bytes)
    | RemoveFile(key: FileKey)

  // `CodeTree::apply_changes`: a create needs the key absent, a replace or remove needs it present.
  function Apply(files: Tree, change: Change): Option<Tree> {
    match change
    case CreateFile(key, bytes) => if key in files then None else Some(files[key := bytes])
    case ReplaceFile(key, bytes) => if key in files then Some(files[key := bytes]) else None
    case RemoveFile(key) => if key in files then Some(files - {key}) else None
  }

  function ApplyAll(files: Tree, changes: seq<Change>): Option<Tree>
    decreases |changes|
  {
    if changes == [] then Some(files)
    else
      match Apply(files, changes[0])
      case None => None
      case Some(next) => ApplyAll(next, changes[1..])
  }

  function Touched(changes: seq<Change>): (r: set<FileKey>)
    ensures forall change :: change in changes ==> change.key in r
  {
    set change <- changes :: change.key
  }

  // ---- Reconciliation ----

  function WriteOf(files: Tree, generated: Tree, key: FileKey): seq<Change>
    requires key in generated
  {
    if key !in files then [CreateFile(key, generated[key])]
    else if files[key] == generated[key] then []
    else [ReplaceFile(key, generated[key])]
  }

  function Writes(files: Tree, generated: Tree, keys: seq<FileKey>): seq<Change>
    requires forall key :: key in keys ==> key in generated
    decreases |keys|
  {
    if keys == [] then []
    else
      var last := |keys| - 1;
      Writes(files, generated, keys[..last]) + WriteOf(files, generated, keys[last])
  }

  // A stale output still holding the bytes it is known by.
  predicate Stale(files: Tree, generated: Tree, known: Tree, key: FileKey) {
    key in known && key !in generated && key in files && files[key] == known[key]
  }

  function Removals(files: Tree, generated: Tree, known: Tree, keys: seq<FileKey>): seq<Change>
    decreases |keys|
  {
    if keys == [] then []
    else
      var last := |keys| - 1;
      Removals(files, generated, known, keys[..last])
        + if Stale(files, generated, known, keys[last]) then [RemoveFile(keys[last])] else []
  }

  function ReconcileChanges(files: Tree, generated: Tree, known: Tree): seq<Change> {
    Writes(files, generated, SortedKeys(generated.Keys)) + Removals(files, generated, known, SortedKeys(known.Keys))
  }

  // A removal yields to a host change that claims its path.
  function Unclaimed(changes: seq<Change>, claimed: set<FileKey>): seq<Change>
    decreases |changes|
  {
    if changes == [] then []
    else
      var last := |changes| - 1;
      Unclaimed(changes[..last], claimed)
        + if changes[last].RemoveFile? && changes[last].key in claimed then [] else [changes[last]]
  }

  function Combined(files: Tree, generated: Tree, known: Tree, host: seq<Change>): seq<Change> {
    Unclaimed(ReconcileChanges(files, generated, known), Touched(host)) + host
  }

  // Session ownership first; recovered outputs fill in what the session does not know.
  function KnownOutputs(session: Tree, recovered: Tree): Tree {
    recovered + session
  }

  // ---- What reconciliation does to each key ----

  // The tree reconciliation leaves, before host changes.
  function Settled(files: Tree, generated: Tree, known: Tree, claimed: set<FileKey>): Tree {
    (files - set key <- known | Stale(files, generated, known, key) && key !in claimed) + generated
  }

  lemma {:induction false} ApplyConcat(files: Tree, a: seq<Change>, b: seq<Change>)
    ensures ApplyAll(files, a + b) ==
      match ApplyAll(files, a) { case None => None case Some(mid) => ApplyAll(mid, b) }
    decreases |a|
  {
    if a == [] {
      assert a + b == b;
    } else {
      assert (a + b)[0] == a[0] && (a + b)[1..] == a[1..] + b;
      var next := Apply(files, a[0]);
      if next.Some? {
        ApplyConcat(next.value, a[1..], b);
      }
    }
  }

  lemma ApplyOne(files: Tree, change: Change)
    ensures ApplyAll(files, [change]) == Apply(files, change)
  {
    var next := Apply(files, change);
    if next.Some? {
      assert ApplyAll(next.value, [change][1..]) == Some(next.value);
    }
  }

  lemma WriteStep(files: Tree, mid: Tree, generated: Tree, key: FileKey)
    requires key in generated && ContentAt(mid, key) == ContentAt(files, key)
    ensures ApplyAll(mid, WriteOf(files, generated, key)) == Some(mid[key := generated[key]])
  {
    if key in files && files[key] == generated[key] {
      assert mid[key := generated[key]] == mid;
    } else {
      ApplyOne(mid, WriteOf(files, generated, key)[0]);
    }
  }

  lemma WritesAppend(files: Tree, generated: Tree, init: seq<FileKey>, key: FileKey)
    requires forall k :: k in init + [key] ==> k in generated
    ensures Writes(files, generated, init + [key]) == Writes(files, generated, init) + WriteOf(files, generated, key)
  {
    assert (init + [key])[..|init|] == init;
  }

  lemma RestAway(files: Tree, generated: Tree, init: seq<FileKey>, key: FileKey)
    requires key !in init
    ensures ContentAt(files + Restrict(generated, init), key) == ContentAt(files, key)
  {
  }

  lemma WritesStep(files: Tree, generated: Tree, init: seq<FileKey>, key: FileKey)
    requires forall k :: k in init + [key] ==> k in generated
    requires key !in init && ApplyAll(files, Writes(files, generated, init)) == Some(files + Restrict(generated, init))
    ensures ApplyAll(files, Writes(files, generated, init + [key])) == Some(files + Restrict(generated, init + [key]))
  {
    var mid := files + Restrict(generated, init);
    assert key in init + [key];
    RestAway(files, generated, init, key);
    RestrictStep(files, generated, init, key);
    WriteStep(files, mid, generated, key);
    WritesAppend(files, generated, init, key);
    ApplyConcat(files, Writes(files, generated, init), WriteOf(files, generated, key));
  }

  lemma {:induction false} WritesApply(files: Tree, generated: Tree, keys: seq<FileKey>)
    requires forall key :: key in keys ==> key in generated
    requires forall i, j :: 0 <= i < j < |keys| ==> keys[i] != keys[j]
    ensures ApplyAll(files, Writes(files, generated, keys)) == Some(files + Restrict(generated, keys))
    decreases |keys|
  {
    if keys == [] {
      RestrictNone(files, generated);
    } else {
      var key, init := keys[|keys| - 1], keys[..|keys| - 1];
      assert keys == init + [key];
      WritesApply(files, generated, init);
      WritesStep(files, generated, init, key);
    }
  }

  function StaleAmong(files: Tree, generated: Tree, known: Tree, claimed: set<FileKey>,
                      keys: seq<FileKey>): set<FileKey>
  {
    set key <- keys | Stale(files, generated, known, key) && key !in claimed
  }

  lemma StaleAmongStep(files: Tree, generated: Tree, known: Tree, claimed: set<FileKey>, init: seq<FileKey>,
                       key: FileKey)
    ensures StaleAmong(files, generated, known, claimed, init + [key])
      == StaleAmong(files, generated, known, claimed, init)
         + if Stale(files, generated, known, key) && key !in claimed then {key} else {}
  {
  }

  // One more removal, on a tree that still has the key.
  lemma RemovalStep(base: Tree, gone: set<FileKey>, changes: seq<Change>, key: FileKey)
    requires key in base && key !in gone && ApplyAll(base, changes) == Some(base - gone)
    ensures ApplyAll(base, changes + [RemoveFile(key)]) == Some(base - (gone + {key}))
  {
    ApplyConcat(base, changes, [RemoveFile(key)]);
    ApplyOne(base - gone, RemoveFile(key));
    MinusStep(base, gone, key);
  }

  lemma RemovalsAppend(files: Tree, generated: Tree, known: Tree, claimed: set<FileKey>, init: seq<FileKey>,
                       key: FileKey)
    ensures Unclaimed(Removals(files, generated, known, init + [key]), claimed)
         == Unclaimed(Removals(files, generated, known, init), claimed)
            + if Stale(files, generated, known, key) && key !in claimed then [RemoveFile(key)] else []
  {
    var before := Removals(files, generated, known, init);
    assert (init + [key])[..|init|] == init;
    if Stale(files, generated, known, key) {
      UnclaimedAppend(before, RemoveFile(key), claimed);
    } else {
      assert before + [] == before;
      assert Unclaimed(before, claimed) + [] == Unclaimed(before, claimed);
    }
  }

  lemma RemovalsStep(files: Tree, generated: Tree, known: Tree, claimed: set<FileKey>, init: seq<FileKey>,
                     key: FileKey)
    requires key !in init
    requires ApplyAll(files + generated, Unclaimed(Removals(files, generated, known, init), claimed))
          == Some((files + generated) - StaleAmong(files, generated, known, claimed, init))
    ensures ApplyAll(files + generated, Unclaimed(Removals(files, generated, known, init + [key]), claimed))
         == Some((files + generated) - StaleAmong(files, generated, known, claimed, init + [key]))
  {
    var changes := Unclaimed(Removals(files, generated, known, init), claimed);
    var gone := StaleAmong(files, generated, known, claimed, init);
    RemovalsAppend(files, generated, known, claimed, init, key);
    StaleAmongStep(files, generated, known, claimed, init, key);
    if Stale(files, generated, known, key) && key !in claimed {
      RemovalStep(files + generated, gone, changes, key);
    } else {
      assert changes + [] == changes && gone + {} == gone;
    }
  }

  lemma {:induction false} RemovalsApply(files: Tree, generated: Tree, known: Tree, claimed: set<FileKey>,
                                         keys: seq<FileKey>)
    requires forall i, j :: 0 <= i < j < |keys| ==> keys[i] != keys[j]
    ensures ApplyAll(files + generated, Unclaimed(Removals(files, generated, known, keys), claimed))
         == Some((files + generated) - StaleAmong(files, generated, known, claimed, keys))
    decreases |keys|
  {
    if keys == [] {
      var base := files + generated;
      assert base - StaleAmong(files, generated, known, claimed, keys) == base;
    } else {
      var key, init := keys[|keys| - 1], keys[..|keys| - 1];
      assert keys == init + [key];
      RemovalsApply(files, generated, known, claimed, init);
      RemovalsStep(files, generated, known, claimed, init, key);
    }
  }

  lemma UnclaimedAppend(changes: seq<Change>, change: Change, claimed: set<FileKey>)
    ensures Unclaimed(changes + [change], claimed) ==
      Unclaimed(changes, claimed) + if change.RemoveFile? && change.key in claimed then [] else [change]
  {
    assert (changes + [change])[..|changes|] == changes;
  }

  lemma {:induction false} UnclaimedConcat(a: seq<Change>, b: seq<Change>, claimed: set<FileKey>)
    ensures Unclaimed(a + b, claimed) == Unclaimed(a, claimed) + Unclaimed(b, claimed)
    decreases |b|
  {
    if b == [] {
      assert a + b == a;
    } else {
      var last := |b| - 1;
      UnclaimedConcat(a, b[..last], claimed);
      assert a + b == (a + b[..last]) + [b[last]];
      UnclaimedAppend(a + b[..last], b[last], claimed);
    }
  }

  lemma {:induction false} WritesUnclaimed(files: Tree, generated: Tree, keys: seq<FileKey>, claimed: set<FileKey>)
    requires forall key :: key in keys ==> key in generated
    ensures Unclaimed(Writes(files, generated, keys), claimed) == Writes(files, generated, keys)
    decreases |keys|
  {
    if keys != [] {
      var last := |keys| - 1;
      WritesUnclaimed(files, generated, keys[..last], claimed);
      UnclaimedConcat(Writes(files, generated, keys[..last]), WriteOf(files, generated, keys[last]), claimed);
    }
  }

  lemma SortedKeysDistinct(keys: set<FileKey>)
    ensures var r := SortedKeys(keys); forall i, j :: 0 <= i < j < |r| ==> r[i] != r[j]
  {
    KeyLessIsStrict();
    AscendingPairs<FileKey>(KeyLess, SortedKeys(keys));
  }

  lemma ReconciliationApplies(files: Tree, generated: Tree, known: Tree, claimed: set<FileKey>)
    ensures ApplyAll(files, Unclaimed(ReconcileChanges(files, generated, known), claimed))
         == Some(Settled(files, generated, known, claimed))
  {
    var g, k := SortedKeys(generated.Keys), SortedKeys(known.Keys);
    var writes, removals := Writes(files, generated, g), Removals(files, generated, known, k);
    SortedKeysDistinct(generated.Keys);
    SortedKeysDistinct(known.Keys);
    UnclaimedConcat(writes, removals, claimed);
    WritesUnclaimed(files, generated, g, claimed);
    WritesApply(files, generated, g);
    RestrictAll(generated, g);
    RemovalsApply(files, generated, known, claimed, k);
    ApplyConcat(files, writes, Unclaimed(removals, claimed));
    SettledIsStaleRemoved(files, generated, known, claimed);
  }

  lemma SettledIsStaleRemoved(files: Tree, generated: Tree, known: Tree, claimed: set<FileKey>)
    ensures (files + generated) - StaleAmong(files, generated, known, claimed, SortedKeys(known.Keys))
         == Settled(files, generated, known, claimed)
  {
    var stale := set key <- known | Stale(files, generated, known, key) && key !in claimed;
    assert StaleAmong(files, generated, known, claimed, SortedKeys(known.Keys)) == stale;
    MinusPlus(files, generated, stale);
  }

  // The staged list applies exactly as far as the host's own changes do, on the settled tree.
  lemma ReconcileApplies(files: Tree, generated: Tree, known: Tree, host: seq<Change>)
    ensures ApplyAll(files, Combined(files, generated, known, host))
         == ApplyAll(Settled(files, generated, known, Touched(host)), host)
  {
    ReconciliationApplies(files, generated, known, Touched(host));
    ApplyConcat(files, Unclaimed(ReconcileChanges(files, generated, known), Touched(host)), host);
  }

  // Changes only see the keys they touch.
  lemma {:induction false} ApplyLocal(f: Tree, g: Tree, changes: seq<Change>)
    requires forall change <- changes :: ContentAt(f, change.key) == ContentAt(g, change.key)
    ensures ApplyAll(f, changes).Some? <==> ApplyAll(g, changes).Some?
    ensures ApplyAll(f, changes).Some? ==>
      forall key :: ContentAt(ApplyAll(f, changes).value, key) ==
        if key in Touched(changes) then ContentAt(ApplyAll(g, changes).value, key) else ContentAt(f, key)
    decreases |changes|
  {
    if changes != [] {
      assert changes[0] in changes;
      var x, y := Apply(f, changes[0]), Apply(g, changes[0]);
      if x.Some? {
        ApplyLocal(x.value, y.value, changes[1..]);
        assert Touched(changes) == {changes[0].key} + Touched(changes[1..]) by {
          assert changes == [changes[0]] + changes[1..];
        }
        UntouchedKept(y.value, changes[1..]);
      }
    }
  }

  lemma {:induction false} UntouchedKept(f: Tree, changes: seq<Change>)
    ensures ApplyAll(f, changes).Some? ==> forall key :: key !in Touched(changes) ==>
      ContentAt(ApplyAll(f, changes).value, key) == ContentAt(f, key)
    decreases |changes|
  {
    if changes != [] && Apply(f, changes[0]).Some? {
      UntouchedKept(Apply(f, changes[0]).value, changes[1..]);
      assert changes == [changes[0]] + changes[1..];
    }
  }

  // Per key: generated bytes on generated keys, host changes where the host claims, unclaimed
  // unchanged stale outputs gone, everything else as it was; and the transaction is accepted
  // exactly when the host's own changes are legal on the viewed tree.
  lemma ReconcilePerKey(files: Tree, generated: Tree, known: Tree, host: seq<Change>)
    requires Touched(host) !! generated.Keys
    ensures ApplyAll(files, Combined(files, generated, known, host)).Some? <==> ApplyAll(files, host).Some?
    ensures ApplyAll(files, host).Some? ==>
      forall key :: ContentAt(ApplyAll(files, Combined(files, generated, known, host)).value, key) ==
        if key in generated then Some(generated[key])
        else if key in Touched(host) then ContentAt(ApplyAll(files, host).value, key)
        else if Stale(files, generated, known, key) then None
        else ContentAt(files, key)
  {
    var claimed := Touched(host);
    var settled := Settled(files, generated, known, claimed);
    ReconcileApplies(files, generated, known, host);
    forall key
      ensures ContentAt(settled, key) ==
        if key in generated then Some(generated[key])
        else if key !in claimed && Stale(files, generated, known, key) then None
        else ContentAt(files, key)
    {
      SettledAt(files, generated, known, claimed, key);
    }
    assert forall change <- host :: change.key in claimed && change.key !in generated;
    ApplyLocal(settled, files, host);
  }

  lemma SettledAt(files: Tree, generated: Tree, known: Tree, claimed: set<FileKey>, key: FileKey)
    ensures ContentAt(Settled(files, generated, known, claimed), key) ==
      if key in generated then Some(generated[key])
      else if key !in claimed && Stale(files, generated, known, key) then None
      else ContentAt(files, key)
  {
  }

  // ---- One change a key, each legal; and nothing left to do the second time ----

  ghost predicate OncePerKey(changes: seq<Change>) {
    forall i, j :: 0 <= i < j < |changes| ==> changes[i].key != changes[j].key
  }

  ghost predicate Legal(files: Tree, changes: seq<Change>) {
    forall change <- changes :: Apply(files, change).Some?
  }

  lemma OncePerKeyConcat(a: seq<Change>, b: seq<Change>)
    requires OncePerKey(a) && OncePerKey(b) && Touched(a) !! Touched(b)
    ensures OncePerKey(a + b)
  {
    forall i, j | 0 <= i < j < |a + b|
      ensures (a + b)[i].key != (a + b)[j].key
    {
      if i < |a| <= j {
        assert a[i].key in Touched(a) && b[j - |a|].key in Touched(b);
      }
    }
  }

  lemma {:induction false} WritesOnce(files: Tree, generated: Tree, keys: seq<FileKey>)
    requires forall key :: key in keys ==> key in generated
    requires forall i, j :: 0 <= i < j < |keys| ==> keys[i] != keys[j]
    ensures OncePerKey(Writes(files, generated, keys)) && Legal(files, Writes(files, generated, keys))
    ensures forall change <- Writes(files, generated, keys) :: change.key in keys
    decreases |keys|
  {
    if keys != [] {
      var last := |keys| - 1;
      var init := keys[..last];
      WritesOnce(files, generated, init);
      assert keys == init + [keys[last]] && keys[last] !in init;
      OncePerKeyConcat(Writes(files, generated, init), WriteOf(files, generated, keys[last]));
    }
  }

  lemma {:induction false} RemovalsOnce(files: Tree, generated: Tree, known: Tree, keys: seq<FileKey>)
    requires forall i, j :: 0 <= i < j < |keys| ==> keys[i] != keys[j]
    ensures OncePerKey(Removals(files, generated, known, keys)) && Legal(files, Removals(files, generated, known, keys))
    ensures forall change <- Removals(files, generated, known, keys) ::
      change.RemoveFile? && change.key in keys && Stale(files, generated, known, change.key)
    decreases |keys|
  {
    if keys != [] {
      var last := |keys| - 1;
      var init := keys[..last];
      RemovalsOnce(files, generated, known, init);
      assert keys == init + [keys[last]] && keys[last] !in init;
      var more: seq<Change> := if Stale(files, generated, known, keys[last]) then [RemoveFile(keys[last])] else [];
      OncePerKeyConcat(Removals(files, generated, known, init), more);
    }
  }

  lemma {:induction false} UnclaimedSubset(changes: seq<Change>, claimed: set<FileKey>)
    requires OncePerKey(changes)
    ensures OncePerKey(Unclaimed(changes, claimed))
    ensures forall change :: change in Unclaimed(changes, claimed) <==>
      change in changes && !(change.RemoveFile? && change.key in claimed)
    decreases |changes|
  {
    if changes != [] {
      var last := |changes| - 1;
      var init := changes[..last];
      UnclaimedSubset(init, claimed);
      assert changes == init + [changes[last]];
      forall change | change in Unclaimed(init, claimed) ensures change.key != changes[last].key {
        var i :| 0 <= i < |init| && init[i] == change;
        assert changes[i].key != changes[last].key;
      }
    }
  }

  // Each staged change is legal on the viewed tree and no key is changed twice.
  lemma CombinedOnce(files: Tree, generated: Tree, known: Tree, host: seq<Change>)
    requires Touched(host) !! generated.Keys && OncePerKey(host) && Legal(files, host)
    ensures OncePerKey(Combined(files, generated, known, host)) && Legal(files, Combined(files, generated, known, host))
  {
    var g, k := SortedKeys(generated.Keys), SortedKeys(known.Keys);
    var writes, removals := Writes(files, generated, g), Removals(files, generated, known, k);
    SortedKeysDistinct(generated.Keys);
    SortedKeysDistinct(known.Keys);
    WritesOnce(files, generated, g);
    RemovalsOnce(files, generated, known, k);
    forall key | key in Touched(writes) && key in Touched(removals) ensures false {
    }
    OncePerKeyConcat(writes, removals);
    UnclaimedSubset(writes + removals, Touched(host));
    OncePerKeyConcat(Unclaimed(writes + removals, Touched(host)), host);
  }

  // Nothing is staged exactly when every generated file is in place and nothing stale is.
  lemma NothingToDo(files: Tree, generated: Tree, known: Tree)
    ensures ReconcileChanges(files, generated, known) == [] <==>
      && (forall key <- generated :: key in files && files[key] == generated[key])
      && (forall key <- known :: !Stale(files, generated, known, key))
  {
    var g, k := SortedKeys(generated.Keys), SortedKeys(known.Keys);
    NoWrites(files, generated, g);
    NoRemovals(files, generated, known, k);
  }

  lemma {:induction false} NoWrites(files: Tree, generated: Tree, keys: seq<FileKey>)
    requires forall key :: key in keys ==> key in generated
    ensures Writes(files, generated, keys) == [] <==>
      forall key <- keys :: key in files && files[key] == generated[key]
    decreases |keys|
  {
    if keys != [] {
      var init, key := keys[..|keys| - 1], keys[|keys| - 1];
      assert keys == init + [key];
      NoWrites(files, generated, init);
      NoWriteAppend(files, generated, init, key);
    }
  }

  lemma NoWriteAppend(files: Tree, generated: Tree, init: seq<FileKey>, key: FileKey)
    requires forall k :: k in init + [key] ==> k in generated
    ensures Writes(files, generated, init + [key]) == [] <==>
      Writes(files, generated, init) == [] && key in files && files[key] == generated[key]
  {
    assert key in init + [key];
    WritesAppend(files, generated, init, key);
  }

  lemma {:induction false} NoRemovals(files: Tree, generated: Tree, known: Tree, keys: seq<FileKey>)
    ensures Removals(files, generated, known, keys) == [] <==>
      forall key <- keys :: !Stale(files, generated, known, key)
    decreases |keys|
  {
    if keys != [] {
      NoRemovals(files, generated, known, keys[..|keys| - 1]);
      assert keys == keys[..|keys| - 1] + [keys[|keys| - 1]];
    }
  }

  // Reconciling a settled tree again, with what the session then knows, stages nothing.
  lemma SettledAgain(files: Tree, generated: Tree, known: Tree)
    ensures ReconcileChanges(Settled(files, generated, known, {}), generated, known) == []
    ensures ReconcileChanges(Settled(files, generated, known, {}), generated, KnownOutputs(generated, map[])) == []
  {
    var settled := Settled(files, generated, known, {});
    NothingToDo(settled, generated, known);
    NothingToDo(settled, generated, KnownOutputs(generated, map[]));
  }

  // ---- Publishing ----

  datatype Store = Store(files: Tree, revision: nat, cache: Contents)

  datatype PublishError = StaleRevision | IllegalChange | CommitFailed

  datatype PersistError = NotRecorded(reason: RecordError) | Backend(failure: CacheError)

  datatype Published = Published(revision: nat, generatedFiles: set<FileKey>, directives: Directives)

  function OutputPublications(prepared: Prepared, keys: seq<FileKey>): (r: seq<Op>)
    requires forall key :: key in keys ==> key in prepared.pending.generated
    ensures |r| == |keys|
    ensures forall i :: 0 <= i < |r| ==> r[i] == OutputPublication(prepared, keys[i])
  {
    seq(|keys|, i requires 0 <= i < |keys| => OutputPublication(prepared, keys[i]))
  }

  // `generated_cache_key` and the bytes published under it.
  function OutputPublication(prepared: Prepared, key: FileKey): Op
    requires key in prepared.pending.generated
  {
    var bytes := prepared.pending.generated[key];
    PublishArtifact(CacheKey(Output, OutputProvenance(prepared.scope, prepared.script, key), Of(bytes)), bytes)
  }

  // Every output, then the record, then the index.
  function PersistOps(prepared: Prepared): seq<Op> {
    match prepared.cacheState
    case Ok(Some(record)) =>
      OutputPublications(prepared, SortedKeys(prepared.pending.generated.Keys))
        + [PublishArtifact(record.key, record.bytes), RecordCurrent(record.key)]
    case _ => []
  }

  function Persist(cache: Contents, prepared: Prepared, budget: nat): (Contents, Option<PersistError>) {
    match prepared.cacheState
    case Err(reason) => (cache, Some(NotRecorded(reason)))
    case Ok(_) =>
      var (after, error) := Run(cache, PersistOps(prepared), budget);
      (after, if error.Some? then Some(Backend(error.value)) else None)
  }

  // A transaction against `expected`: nothing changes unless it commits, and an empty one keeps the
  // revision.
  function Commit(store: Store, expected: nat, changes: seq<Change>, succeeds: bool): Result<Store, PublishError> {
    if expected != store.revision then Err(StaleRevision)
    else
      match ApplyAll(store.files, changes)
      case None => Err(IllegalChange)
      case Some(files) =>
        if changes == [] then Ok(store)
        else if !succeeds then Err(CommitFailed)
        else Ok(store.(files := files, revision := store.revision + 1))
  }

  const PERSIST_WARNING := Diagnostic(Warning, "could not persist build-script cache")

  function PublishedOutput(prepared: Prepared, revision: nat, error: Option<PersistError>): Published {
    var d := prepared.pending.directives;
    Published(revision, prepared.pending.generated.Keys,
              if error.Some? then d.(diagnostics := d.diagnostics + [PERSIST_WARNING]) else d)
  }

  function Publish(store: Store, session: Tree, view: View, prepared: Prepared, host: seq<Change>,
                   succeeds: bool, budget: nat): (Store, Tree, Result<Published, PublishError>)
  {
    var generated := prepared.pending.generated;
    var changes := Combined(view.files, generated, KnownOutputs(session, prepared.recovered), host);
    match Commit(store, view.revision, changes, succeeds)
    case Err(error) => (store, session, Err(error))
    case Ok(committed) =>
      var (cache, error) := Persist(committed.cache, prepared, budget);
      (committed.(cache := cache), generated, Ok(PublishedOutput(prepared, committed.revision, error)))
  }

  function Clear(store: Store, session: Tree, succeeds: bool): (Store, Tree, Result<nat, PublishError>) {
    match Commit(store, store.revision, ReconcileChanges(store.files, map[], session), succeeds)
    case Err(error) => (store, session, Err(error))
    case Ok(committed) => (committed, map[], Ok(committed.revision))
  }

  // ---- What committing, publishing and clearing come to ----

  // A commit takes effect exactly when it is asked of the current revision, every change is legal in
  // its turn, and the write, if there is anything to write, succeeds.
  lemma CommitExactly(store: Store, expected: nat, changes: seq<Change>, succeeds: bool)
    ensures var r := Commit(store, expected, changes, succeeds);
      && (r.Ok? <==> expected == store.revision && ApplyAll(store.files, changes).Some? && (changes == [] || succeeds))
      && (r.Ok? ==> Some(r.value.files) == ApplyAll(store.files, changes) && r.value.cache == store.cache
                    && r.value.revision == store.revision + if changes == [] then 0 else 1)
      && (r.Err? ==> r.error == if expected != store.revision then StaleRevision
                                else if ApplyAll(store.files, changes).None? then IllegalChange else CommitFailed)
  {
  }

  // What a change needs, and what it leaves at every key.
  lemma ApplyExactly(files: Tree, change: Change, key: FileKey)
    ensures Apply(files, change).Some? <==> (change.key in files <==> !change.CreateFile?)
    ensures Apply(files, change).Some? ==>
      ContentAt(Apply(files, change).value, key) ==
        if key != change.key then ContentAt(files, key)
        else if change.RemoveFile? then None
        else Some(change.bytes)
  {
  }

  // The session's own file, still holding what the session knows it by.
  predicate Owned(files: Tree, session: Tree, key: FileKey) {
    key in session && ContentAt(files, key) == Some(session[key])
  }

  // A file of an earlier run nobody has changed: the session's own, or, where the session knows nothing
  // of the path, what the cache recovered.
  predicate Leftover(files: Tree, session: Tree, recovered: Tree, key: FileKey) {
    Owned(files, session, key) || (key !in session && Owned(files, recovered, key))
  }

  // What a publish leaves at a path: what was generated, what the host put there, nothing where an
  // unchanged leftover was, and everything else as it stood.
  function PublishedAt(files: Tree, session: Tree, prepared: Prepared, hosted: Tree, touched: set<FileKey>,
                       key: FileKey): Option<Bytes>
  {
    if key in prepared.pending.generated then Some(prepared.pending.generated[key])
    else if key in touched then ContentAt(hosted, key)
    else if Leftover(files, session, prepared.recovered, key) then None
    else ContentAt(files, key)
  }

  lemma LeftoverIsStale(files: Tree, generated: Tree, session: Tree, recovered: Tree, key: FileKey)
    requires key !in generated
    ensures Leftover(files, session, recovered, key) <==> Stale(files, generated, KnownOutputs(session, recovered), key)
  {
  }

  lemma ReconciledAt(files: Tree, generated: Tree, known: Tree, host: seq<Change>, after: Option<Tree>,
                     hosted: Option<Tree>, key: FileKey)
    requires Touched(host) !! generated.Keys
    requires after == ApplyAll(files, Combined(files, generated, known, host)) && hosted == ApplyAll(files, host)
    ensures after.Some? <==> hosted.Some?
    ensures after.Some? ==>
      ContentAt(after.value, key) ==
        if key in generated then Some(generated[key])
        else if key in Touched(host) then ContentAt(hosted.value, key)
        else if Stale(files, generated, known, key) then None
        else ContentAt(files, key)
  {
    ReconcilePerKey(files, generated, known, host);
  }

  // What the staged changes leave.
  lemma StagedLeaves(files: Tree, session: Tree, prepared: Prepared, host: seq<Change>, changes: seq<Change>,
                     key: FileKey)
    requires Touched(host) !! prepared.pending.generated.Keys
    requires changes == Combined(files, prepared.pending.generated, KnownOutputs(session, prepared.recovered), host)
    requires ApplyAll(files, changes).Some?
    ensures ApplyAll(files, host).Some?
    ensures ContentAt(ApplyAll(files, changes).value, key) ==
      PublishedAt(files, session, prepared, ApplyAll(files, host).value, Touched(host), key)
  {
    var generated, known := prepared.pending.generated, KnownOutputs(session, prepared.recovered);
    ReconciledAt(files, generated, known, host, ApplyAll(files, changes), ApplyAll(files, host), key);
    if key !in generated {
      LeftoverIsStale(files, generated, session, prepared.recovered, key);
    }
  }

  lemma PublishCommits(store: Store, session: Tree, prepared: Prepared, host: seq<Change>, succeeds: bool, budget: nat,
                       changes: seq<Change>)
    requires changes ==
      Combined(store.files, prepared.pending.generated, KnownOutputs(session, prepared.recovered), host)
    ensures var (after, _, r) :=
        Publish(store, session, View(store.revision, store.files), prepared, host, succeeds, budget);
      r.Ok? ==> ApplyAll(store.files, changes) == Some(after.files)
  {
    CommitExactly(store, store.revision, changes, succeeds);
  }

  lemma PublishedTree(store: Store, session: Tree, prepared: Prepared, host: seq<Change>, succeeds: bool, budget: nat,
                      key: FileKey)
    requires Touched(host) !! prepared.pending.generated.Keys
    ensures var (after, _, r) :=
        Publish(store, session, View(store.revision, store.files), prepared, host, succeeds, budget);
      var hosted := ApplyAll(store.files, host);
      && (r.Ok? ==> hosted.Some?)
      && (r.Ok? ==> ContentAt(after.files, key) ==
                      PublishedAt(store.files, session, prepared, hosted.value, Touched(host), key))
  {
    var changes := Combined(store.files, prepared.pending.generated, KnownOutputs(session, prepared.recovered), host);
    PublishCommits(store, session, prepared, host, succeeds, budget, changes);
    if ApplyAll(store.files, changes).Some? {
      StagedLeaves(store.files, session, prepared, host, changes, key);
    }
  }

  // An answer says which revision was committed, which files were generated, everything the script
  // registered and, exactly when persisting failed, one warning more than the script gave.
  predicate AnswerFor(answer: Published, prepared: Prepared, revision: nat, failed: bool) {
    var (given, registered) := (answer.directives, prepared.pending.directives);
    && answer.revision == revision
    && answer.generatedFiles == prepared.pending.generated.Keys
    && given.(diagnostics := []) == registered.(diagnostics := [])
    && registered.diagnostics <= given.diagnostics
    && |given.diagnostics| == |registered.diagnostics| + (if failed then 1 else 0)
    && (failed ==> given.diagnostics[|registered.diagnostics|].severity.Warning?)
  }

  // A persist fails exactly when there is no record because one could not be made, or the backend did
  // not perform every operation.
  lemma PersistFails(cache: Contents, prepared: Prepared, budget: nat)
    ensures Persist(cache, prepared, budget).1.Some? <==>
      prepared.cacheState.Err? || Run(cache, PersistOps(prepared), budget).1.Some?
    ensures Persist(cache, prepared, budget).0 == Run(cache, PersistOps(prepared), budget).0
  {
  }

  lemma OutputAnswers(prepared: Prepared, revision: nat, error: Option<PersistError>)
    ensures AnswerFor(PublishedOutput(prepared, revision, error), prepared, revision, error.Some?)
  {
  }

  lemma PublishAnswers(store: Store, session: Tree, view: View, prepared: Prepared, host: seq<Change>,
                       succeeds: bool, budget: nat)
    ensures var (after, owned, r) := Publish(store, session, view, prepared, host, succeeds, budget);
      && (r.Ok? ==> AnswerFor(r.value, prepared, after.revision, Persist(store.cache, prepared, budget).1.Some?)
                    && owned == prepared.pending.generated && after.cache == Persist(store.cache, prepared, budget).0)
      && (r.Err? ==> after == store && owned == session)
  {
    var changes := Combined(view.files, prepared.pending.generated, KnownOutputs(session, prepared.recovered), host);
    var committed := Commit(store, view.revision, changes, succeeds);
    CommitExactly(store, view.revision, changes, succeeds);
    if committed.Ok? {
      OutputAnswers(prepared, committed.value.revision, Persist(store.cache, prepared, budget).1);
    }
  }

  // Clearing removes exactly the session's unchanged files, in one revision if there are any, and then
  // the session knows nothing; if the write fails, nothing has changed.
  ghost predicate Cleared(store: Store, session: Tree, after: Store, owned: Tree, r: Result<nat, PublishError>,
                    succeeds: bool)
  {
    var some := exists key <- session :: Owned(store.files, session, key);
    && (r.Ok? <==> !some || succeeds)
    && (r.Err? ==> after == store && owned == session)
    && (r.Ok? ==>
          && owned == map[] && after.cache == store.cache
          && r.value == after.revision == store.revision + (if some then 1 else 0)
          && (forall key :: ContentAt(after.files, key) ==
                              if Owned(store.files, session, key) then None else ContentAt(store.files, key)))
  }

  lemma ClearedAt(files: Tree, session: Tree, after: Option<Tree>, key: FileKey)
    requires after == ApplyAll(files, Combined(files, map[], session, []))
    ensures after.Some?
    ensures ContentAt(after.value, key) == if Owned(files, session, key) then None else ContentAt(files, key)
  {
    ReconciledAt(files, map[], session, [], after, Some(files), key);
    assert Owned(files, session, key) <==> Stale(files, map[], session, key);
  }

  lemma ClearedTree(files: Tree, session: Tree, after: Option<Tree>)
    requires after == ApplyAll(files, ReconcileChanges(files, map[], session))
    ensures after.Some?
    ensures forall key ::
      ContentAt(after.value, key) == if Owned(files, session, key) then None else ContentAt(files, key)
  {
    var changes := ReconcileChanges(files, map[], session);
    assert changes == Combined(files, map[], session, []) by {
      NothingClaimed(changes);
    }
    forall key
      ensures after.Some? &&
        ContentAt(after.value, key) == if Owned(files, session, key) then None else ContentAt(files, key)
    {
      ClearedAt(files, session, after, key);
    }
    assert after.Some? by {
      ReconcilePerKey(files, map[], session, []);
    }
  }

  lemma NothingOwned(files: Tree, session: Tree)
    ensures ReconcileChanges(files, map[], session) != [] <==> exists key <- session :: Owned(files, session, key)
  {
    NothingToDo(files, map[], session);
    forall key | key in session ensures Owned(files, session, key) <==> Stale(files, map[], session, key) {
    }
  }

  lemma ClearExactly(store: Store, session: Tree, succeeds: bool)
    ensures var (after, owned, r) := Clear(store, session, succeeds);
      Cleared(store, session, after, owned, r, succeeds)
  {
    ClearedTree(store.files, session, ApplyAll(store.files, ReconcileChanges(store.files, map[], session)));
    NothingOwned(store.files, session);
    CommitExactly(store, store.revision, ReconcileChanges(store.files, map[], session), succeeds);
  }

  // Without host changes nothing is claimed.
  lemma {:induction false} NothingClaimed(changes: seq<Change>)
    ensures Unclaimed(changes, Touched([])) == changes
    decreases |changes|
  {
    if changes != [] {
      NothingClaimed(changes[..|changes| - 1]);
    }
  }

  // ---- The mutable objects ----

  class ProjectStorage {
    var files: Tree
    var revision: nat
    const artifacts: ArtifactCache

    function Value(): Store
      reads this, artifacts
    {
      Store(files, revision, artifacts.Value())
    }

    constructor (files: Tree, artifacts: ArtifactCache)
      ensures this.files == files && revision == 0 && this.artifacts == artifacts
    {
      this.files, revision, this.artifacts := files, 0, artifacts;
    }

    // Stage `changes` on a transaction against `expected` and commit it.
    method CommitChanges(expected: nat, changes: seq<Change>, succeeds: bool) returns (r: Result<nat, PublishError>)
      modifies this
      ensures r.Ok? ==> Commit(old(Value()), expected, changes, succeeds) == Ok(Value()) && r.value == revision
      ensures r.Err? ==> Commit(old(Value()), expected, changes, succeeds) == Err(r.error) && Value() == old(Value())
    {
      if expected != revision {
        return Err(StaleRevision);
      }
      var preview := ApplyAll(files, changes);
      if preview.None? {
        return Err(IllegalChange);
      }
      if changes != [] {
        if !succeeds {
          return Err(CommitFailed);
        }
        files, revision := preview.value, revision + 1;
      }
      r := Ok(revision);
    }
  }

  class BuildScriptSession {
    var outputs: Tree

    constructor ()
      ensures outputs == map[]
    {
      outputs := map[];
    }
  }

  lemma WritesExtend(files: Tree, generated: Tree, keys: seq<FileKey>, i: nat)
    requires i < |keys| && forall key :: key in keys ==> key in generated
    ensures Writes(files, generated, keys[..i + 1])
         == Writes(files, generated, keys[..i]) + WriteOf(files, generated, keys[i])
  {
    assert keys[..i + 1][..i] == keys[..i];
  }

  lemma RemovalsExtend(files: Tree, generated: Tree, known: Tree, keys: seq<FileKey>, i: nat)
    requires i < |keys|
    ensures Removals(files, generated, known, keys[..i + 1]) == Removals(files, generated, known, keys[..i])
         + if Stale(files, generated, known, keys[i]) then [RemoveFile(keys[i])] else []
  {
    assert keys[..i + 1][..i] == keys[..i];
  }

  method ReconcileOutputChanges(files: Tree, generated: Tree, known: Tree) returns (changes: seq<Change>)
    ensures changes == ReconcileChanges(files, generated, known)
  {
    var writes := GeneratedWrites(files, generated, SortedKeys(generated.Keys));
    var removals := StaleRemovals(files, generated, known, SortedKeys(known.Keys));
    changes := writes + removals;
  }

  method GeneratedWrites(files: Tree, generated: Tree, keys: seq<FileKey>) returns (changes: seq<Change>)
    requires forall key :: key in keys ==> key in generated
    ensures changes == Writes(files, generated, keys)
  {
    changes := [];
    var i := 0;
    while i < |keys|
      invariant i <= |keys|
      invariant changes == Writes(files, generated, keys[..i])
    {
      WritesExtend(files, generated, keys, i);
      var key := keys[i];
      if key !in files {
        changes := changes + [CreateFile(key, generated[key])];
      } else if files[key] != generated[key] {
        changes := changes + [ReplaceFile(key, generated[key])];
      }
      i := i + 1;
    }
    assert keys[..i] == keys;
  }

  method StaleRemovals(files: Tree, generated: Tree, known: Tree, keys: seq<FileKey>) returns (changes: seq<Change>)
    requires forall key :: key in keys ==> key in known
    ensures changes == Removals(files, generated, known, keys)
  {
    changes := [];
    var i := 0;
    while i < |keys|
      invariant i <= |keys|
      invariant changes == Removals(files, generated, known, keys[..i])
    {
      RemovalsExtend(files, generated, known, keys, i);
      var key := keys[i];
      if key !in generated {
        if key in files && files[key] == known[key] {
          changes := changes + [RemoveFile(key)];
        }
      }
      i := i + 1;
    }
    assert keys[..i] == keys;
  }

  method PersistPrepared(prepared: Prepared, artifacts: ArtifactCache, budget: nat)
    returns (error: Option<PersistError>)
    modifies artifacts
    ensures (artifacts.Value(), error) == Persist(old(artifacts.Value()), prepared, budget)
  {
    match prepared.cacheState {
      case Err(reason) =>
        error := Some(NotRecorded(reason));
      case Ok(_) =>
        var failure := artifacts.PerformAll(PersistOps(prepared), budget);
        error := if failure.Some? then Some(Backend(failure.value)) else None;
    }
  }

  method PublishPreparedBuildScript(storage: ProjectStorage, view: View, prepared: Prepared,
                                    session: BuildScriptSession, host: seq<Change>, succeeds: bool, budget: nat)
    returns (r: Result<Published, PublishError>)
    modifies storage, storage.artifacts, session
    ensures (storage.Value(), session.outputs, r)
         == Publish(old(storage.Value()), old(session.outputs), view, prepared, host, succeeds, budget)
    ensures r.Ok? ==> AnswerFor(r.value, prepared, storage.Value().revision,
                                Persist(old(storage.Value()).cache, prepared, budget).1.Some?)
    ensures r.Err? ==> storage.Value() == old(storage.Value()) && session.outputs == old(session.outputs)
  {
    PublishAnswers(storage.Value(), session.outputs, view, prepared, host, succeeds, budget);
    var known := KnownOutputs(session.outputs, prepared.recovered);
    var changes := ReconcileOutputChanges(view.files, prepared.pending.generated, known);
    changes := Unclaimed(changes, Touched(host)) + host;
    var committed := storage.CommitChanges(view.revision, changes, succeeds);
    if committed.Err? {
      return Err(committed.error);
    }
    session.outputs := prepared.pending.generated;
    var error := PersistPrepared(prepared, storage.artifacts, budget);
    r := Ok(PublishedOutput(prepared, committed.value, error));
  }

  method ClearBuildScriptOutputs(storage: ProjectStorage, session: BuildScriptSession, succeeds: bool)
    returns (r: Result<nat, PublishError>)
    modifies storage, session
    ensures (storage.Value(), session.outputs, r) == Clear(old(storage.Value()), old(session.outputs), succeeds)
    ensures Cleared(old(storage.Value()), old(session.outputs), storage.Value(), session.outputs, r, succeeds)
  {
    ClearExactly(storage.Value(), session.outputs, succeeds);
    var changes := ReconcileOutputChanges(storage.files, map[], session.outputs);
    var committed := storage.CommitChanges(storage.revision, changes, succeeds);
    if committed.Err? {
      return Err(committed.error);
    }
    session.outputs := map[];
    r := Ok(committed.value);
  }
}
