// Deletion safety over whole runs: reconciliation only ever removes what jals itself generated.
module Deletion {
  import opened Text
  import opened Paths
  import opened Model
  import opened Fingerprint
  import opened Publication
  import opened Runs

  // The removals reconciliation stages, host changes apart.
  function ReconcileRemovals(files: Tree, generated: Tree, known: Tree, claimed: set<FileKey>): set<FileKey> {
    set change <- Unclaimed(ReconcileChanges(files, generated, known), claimed) | change.RemoveFile? :: change.key
  }

  lemma RemovalListed(files: Tree, generated: Tree, known: Tree, key: FileKey)
    ensures RemoveFile(key) in ReconcileChanges(files, generated, known) <==> Stale(files, generated, known, key)
  {
    var g, k := SortedKeys(generated.Keys), SortedKeys(known.Keys);
    SortedKeysDistinct(known.Keys);
    RemovalsOnce(files, generated, known, k);
    WritesAreWrites(files, generated, g);
    RemovalsCover(files, generated, known, k);
  }

  // The removals are exactly the unclaimed stale outputs still holding their known bytes.
  lemma RemovalsAreStale(files: Tree, generated: Tree, known: Tree, claimed: set<FileKey>)
    ensures ReconcileRemovals(files, generated, known, claimed)
         == set key <- known | Stale(files, generated, known, key) && key !in claimed
  {
    var removed := ReconcileRemovals(files, generated, known, claimed);
    forall key ensures key in removed <==> Stale(files, generated, known, key) && key !in claimed {
      MemberOfUnclaimed(ReconcileChanges(files, generated, known), claimed);
      RemovalListed(files, generated, known, key);
      assert key in removed <==> RemoveFile(key) in Unclaimed(ReconcileChanges(files, generated, known), claimed);
    }
  }

  lemma {:induction false} WritesAreWrites(files: Tree, generated: Tree, keys: seq<FileKey>)
    requires forall key :: key in keys ==> key in generated
    ensures forall change <- Writes(files, generated, keys) :: !change.RemoveFile?
    decreases |keys|
  {
    if keys != [] {
      WritesAreWrites(files, generated, keys[..|keys| - 1]);
    }
  }

  lemma {:induction false} RemovalsCover(files: Tree, generated: Tree, known: Tree, keys: seq<FileKey>)
    ensures forall key <- keys | Stale(files, generated, known, key) ::
      RemoveFile(key) in Removals(files, generated, known, keys)
    decreases |keys|
  {
    if keys != [] {
      var last := |keys| - 1;
      RemovalsCover(files, generated, known, keys[..last]);
      assert keys == keys[..last] + [keys[last]];
    }
  }

  lemma {:induction false} MemberOfUnclaimed(changes: seq<Change>, claimed: set<FileKey>)
    ensures forall change :: change in Unclaimed(changes, claimed) <==>
      change in changes && !(change.RemoveFile? && change.key in claimed)
    decreases |changes|
  {
    if changes != [] {
      var last := |changes| - 1;
      MemberOfUnclaimed(changes[..last], claimed);
      assert changes == changes[..last] + [changes[last]];
    }
  }

  // ---- What a user changed stays ----

  // Neither generated now nor claimed by the host.
  predicate LeftAlone(w: World, e: Event, key: FileKey) {
    match e
    case PublishRoot(host, _) =>
      w.slot.Some? ==> key !in w.slot.value.1.pending.generated && key !in Touched(host)
    case Edit(_) => false
    case _ => true
  }

  lemma SettledKeeps(files: Tree, generated: Tree, known: Tree, host: seq<Change>, key: FileKey)
    requires key !in generated && key !in Touched(host) && !Stale(files, generated, known, key)
    requires ApplyAll(files, Combined(files, generated, known, host)).Some?
    ensures ContentAt(ApplyAll(files, Combined(files, generated, known, host)).value, key) == ContentAt(files, key)
  {
    ReconcileApplies(files, generated, known, host);
    SettledAt(files, generated, known, Touched(host), key);
    UntouchedKept(Settled(files, generated, known, Touched(host)), host);
  }

  lemma CommitFiles(store: Store, expected: nat, changes: seq<Change>, succeeds: bool)
    ensures var r := Commit(store, expected, changes, succeeds);
      r.Ok? ==> ApplyAll(store.files, changes) == Some(r.value.files)
  {
  }

  // A file whose bytes jals cannot take for its own: not what the session knows it published there
  // last or, where the session knows nothing of the path, not anything ever published there.
  predicate Foreign(w: World, key: FileKey)
    requires key in w.store.files
  {
    if key in w.session then key in w.last ==> w.last[key] != w.store.files[key]
    else (key, w.store.files[key]) !in w.history
  }

  // Such a file survives every step that neither generates the path, nor claims it for the host, nor
  // is itself a user edit.
  lemma EditedFileSurvives(p: Platform, w: World, e: Event, key: FileKey)
    requires p.Faithful() && Reachable(p, w)
    requires key in w.store.files && Foreign(w, key) && LeftAlone(w, e, key)
    ensures key in Step(p, w, e).store.files && Step(p, w, e).store.files[key] == w.store.files[key]
  {
    ReachableKeeps(p, w);
    match e
    case PublishRoot(host, succeeds) => PublishKeepsFile(p, w, host, succeeds, key);
    case ClearRoot(succeeds) => ClearKeepsFile(w, succeeds, key);
    case _ =>
  }

  lemma GeneratedKept(files: Tree, generated: Tree, known: Tree, host: seq<Change>, key: FileKey)
    requires key in generated && key !in Touched(host)
    requires ApplyAll(files, Combined(files, generated, known, host)).Some?
    ensures ContentAt(ApplyAll(files, Combined(files, generated, known, host)).value, key) == Some(generated[key])
  {
    ReconcileApplies(files, generated, known, host);
    SettledAt(files, generated, known, Touched(host), key);
    UntouchedKept(Settled(files, generated, known, Touched(host)), host);
  }

  lemma GeneratedStays(p: Platform, w: World, host: seq<Change>, succeeds: bool, key: FileKey)
    requires SlotInvariant(p, w) && w.slot.Some? && Committed(w, host, succeeds).Ok?
    requires key in w.slot.value.1.pending.generated && key !in Touched(host)
    ensures key in Committed(w, host, succeeds).value.files
  {
    var (view, prepared) := w.slot.value;
    var generated, known := prepared.pending.generated, KnownOutputs(w.session, prepared.recovered);
    CommitFiles(w.store, view.revision, Combined(view.files, generated, known, host), succeeds);
    GeneratedKept(view.files, generated, known, host, key);
    assert ContentAt(Committed(w, host, succeeds).value.files, key) == Some(generated[key]);
  }

  lemma ForeignNotStale(w: World, files: Tree, generated: Tree, recovered: Tree, key: FileKey)
    requires SessionIsLast(w.session, w.last) && Items(recovered) <= w.history
    requires key in w.store.files && Foreign(w, key) && files == w.store.files
    ensures !Stale(files, generated, KnownOutputs(w.session, recovered), key)
  {
    if key !in w.session && key in recovered {
      assert (key, recovered[key]) in Items(recovered);
    }
  }

  lemma PublishKeepsFile(p: Platform, w: World, host: seq<Change>, succeeds: bool, key: FileKey)
    requires SessionIsLast(w.session, w.last) && SlotInvariant(p, w)
    requires key in w.store.files && Foreign(w, key) && LeftAlone(w, PublishRoot(host, succeeds), key)
    ensures var after := StepPublish(w, host, succeeds);
      key in after.store.files && after.store.files[key] == w.store.files[key]
  {
    if w.slot.Some? && Committed(w, host, succeeds).Ok? {
      var (view, prepared) := w.slot.value;
      var generated := prepared.pending.generated;
      var known := KnownOutputs(w.session, prepared.recovered);
      CommitFiles(w.store, view.revision, Combined(view.files, generated, known, host), succeeds);
      ForeignNotStale(w, view.files, generated, prepared.recovered, key);
      SettledKeeps(view.files, generated, known, host, key);
      assert ContentAt(Committed(w, host, succeeds).value.files, key) == ContentAt(w.store.files, key);
    }
  }

  lemma ClearingCombines(files: Tree, session: Tree)
    ensures ReconcileChanges(files, map[], session) == Combined(files, map[], session, [])
    ensures KnownOutputs(session, map[]) == session
  {
    NothingClaimed(ReconcileChanges(files, map[], session));
  }

  lemma ClearKeepsFile(w: World, succeeds: bool, key: FileKey)
    requires SessionIsLast(w.session, w.last)
    requires key in w.store.files && Foreign(w, key)
    ensures var after := Clear(w.store, w.session, succeeds).0;
      key in after.files && after.files[key] == w.store.files[key]
  {
    var changes := ReconcileChanges(w.store.files, map[], w.session);
    var committed := Commit(w.store, w.store.revision, changes, succeeds);
    if committed.Ok? {
      ClearingCombines(w.store.files, w.session);
      CommitFiles(w.store, w.store.revision, changes, succeeds);
      ForeignNotStale(w, w.store.files, map[], map[], key);
      SettledKeeps(w.store.files, map[], w.session, [], key);
      assert ContentAt(committed.value.files, key) == ContentAt(w.store.files, key);
    }
  }

  // What disappears in a step neither the user nor the host asked it of was left alone by them.
  lemma VanishedLeftAlone(p: Platform, w: World, e: Event, key: FileKey)
    requires Invariant(p, w) && key in w.store.files && key !in Step(p, w, e).store.files
    requires !e.Edit? && (e.PublishRoot? ==> key !in Touched(e.host))
    ensures LeftAlone(w, e, key)
  {
    match e
    case PublishRoot(host, succeeds) =>
      if w.slot.Some? && Committed(w, host, succeeds).Ok? && key in w.slot.value.1.pending.generated {
        GeneratedStays(p, w, host, succeeds, key);
      }
    case _ =>
  }

  lemma OursWasWritten(p: Platform, w: World, key: FileKey)
    requires Invariant(p, w) && key in w.store.files && !Foreign(w, key)
    ensures (key, w.store.files[key]) in w.history && EngineWrote(p, key, w.store.files[key])
    ensures key in w.session ==> key in w.last && w.last[key] == w.store.files[key]
  {
    if key in w.session {
      assert (key, w.session[key]) in Items(w.session);
    }
  }

  // Across any run, a file that disappears, other than by the user's or the host's hand, held bytes
  // this project's script generated at that very path and a publish committed there; and while the
  // session knows the path, the bytes a publish committed there last.
  lemma DeletionSafety(p: Platform, w: World, e: Event, key: FileKey)
    requires p.Faithful() && Reachable(p, w)
    requires key in w.store.files && key !in Step(p, w, e).store.files
    requires !e.Edit? && (e.PublishRoot? ==> key !in Touched(e.host))
    ensures (key, w.store.files[key]) in w.history && EngineWrote(p, key, w.store.files[key])
    ensures key in w.session ==> key in w.last && w.last[key] == w.store.files[key]
  {
    ReachableKeeps(p, w);
    VanishedLeftAlone(p, w, e, key);
    if Foreign(w, key) {
      EditedFileSurvives(p, w, e, key);
    }
    OursWasWritten(p, w, key);
  }
}
