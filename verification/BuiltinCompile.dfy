// The in-process toolchain: every source copied below the classes directory in one transaction.
module BuiltinCompile {
  import opened Text
  import opened Paths
  import opened Model
  import opened Fingerprint
  import opened Publication

  // The components of an absolute host path.
  type HostPath = seq<string>

  // Source roots and classes directory, already resolved against the project root.
  datatype Project = Project(root: HostPath, sourceRoots: seq<HostPath>, classesDir: HostPath)

  datatype CompileError =
    | Unaddressable(path: HostPath)
    | Unreadable(path: HostPath)
    | Transaction(error: PublishError)
    | Unsupported

  // ---- Where a source goes ----

  // Its path below each root containing it; the shortest, and the first of those.
  function Shortest(src: HostPath, roots: seq<HostPath>): Option<HostPath>
    decreases |roots|
  {
    if roots == [] then None
    else
      var others := Shortest(src, roots[1..]);
      if roots[0] <= src && (others.None? || |src| - |roots[0]| <= |others.value|)
      then Some(src[|roots[0]|..])
      else others
  }

  function Destination(project: Project, src: HostPath): HostPath {
    match Shortest(src, project.sourceRoots)
    case Some(relative) => project.classesDir + relative
    case None =>
      if project.root <= src then project.classesDir + src[|project.root|..]
      else if src == [] then []
      else project.classesDir + [src[|src| - 1]]
  }

  predicate Containing(src: HostPath, roots: seq<HostPath>, i: nat) {
    i < |roots| && roots[i] <= src
  }

  // Root `i` contains `src`, and no root containing it is deeper.
  ghost predicate DeepestRoot(src: HostPath, roots: seq<HostPath>, i: nat) {
    Containing(src, roots, i) && forall j :: 0 <= j < |roots| && roots[j] <= src ==> |roots[j]| <= |roots[i]|
  }

  lemma {:induction false} ShortestIsDeepest(src: HostPath, roots: seq<HostPath>)
    ensures Shortest(src, roots).None? <==> forall j :: 0 <= j < |roots| ==> !(roots[j] <= src)
    ensures Shortest(src, roots).Some? ==>
      exists i: nat :: DeepestRoot(src, roots, i) && Shortest(src, roots) == Some(src[|roots[i]|..])
    decreases |roots|
  {
    if roots != [] {
      var rest := roots[1..];
      ShortestIsDeepest(src, rest);
      assert forall j :: 1 <= j < |roots| ==> roots[j] == rest[j - 1];
      var others := Shortest(src, rest);
      if roots[0] <= src && (others.None? || |src| - |roots[0]| <= |others.value|) {
        if others.Some? {
          var i: nat :| DeepestRoot(src, rest, i) && others == Some(src[|rest[i]|..]);
        }
        assert DeepestRoot(src, roots, 0);
      } else if others.Some? {
        var i: nat :| DeepestRoot(src, rest, i) && others == Some(src[|rest[i]|..]);
        assert DeepestRoot(src, roots, i + 1);
      }
    }
  }

  // The documented layout: below the deepest containing source root, else the project root, else bare.
  lemma DestinationLayout(project: Project, src: HostPath)
    ensures (exists i: nat :: Containing(src, project.sourceRoots, i)) ==>
      exists i: nat :: DeepestRoot(src, project.sourceRoots, i)
        && Destination(project, src) == project.classesDir + src[|project.sourceRoots[i]|..]
    ensures !(exists i: nat :: Containing(src, project.sourceRoots, i)) && project.root <= src ==>
      Destination(project, src) == project.classesDir + src[|project.root|..]
    ensures !(exists i: nat :: Containing(src, project.sourceRoots, i)) && !(project.root <= src) && src != [] ==>
      Destination(project, src) == project.classesDir + [src[|src| - 1]]
  {
    ShortestIsDeepest(src, project.sourceRoots);
    assert (exists i: nat :: Containing(src, project.sourceRoots, i)) <==> Shortest(src, project.sourceRoots).Some? by {
      assert forall j :: 0 <= j < |project.sourceRoots| && project.sourceRoots[j] <= src ==>
        Containing(src, project.sourceRoots, j);
    }
  }

  // Two sources whose deepest root is the same one never share a destination.
  lemma SameRootApart(project: Project, a: HostPath, b: HostPath, i: nat)
    requires DeepestRoot(a, project.sourceRoots, i) && DeepestRoot(b, project.sourceRoots, i)
    ensures Destination(project, a) == Destination(project, b) <==> a == b
  {
    BelowRoot(project, a, i);
    BelowRoot(project, b, i);
    var root := project.sourceRoots[i];
    if Destination(project, a) == Destination(project, b) {
      var d := |project.classesDir|;
      assert Destination(project, a)[d..] == a[|root|..] && Destination(project, b)[d..] == b[|root|..];
      assert a == root + a[|root|..] && b == root + b[|root|..];
    }
  }

  lemma BelowRoot(project: Project, src: HostPath, i: nat)
    requires DeepestRoot(src, project.sourceRoots, i)
    ensures Destination(project, src) == project.classesDir + src[|project.sourceRoots[i]|..]
  {
    ShortestIsDeepest(src, project.sourceRoots);
    var k: nat :| DeepestRoot(src, project.sourceRoots, k)
      && Shortest(src, project.sourceRoots) == Some(src[|project.sourceRoots[k]|..]);
  }

  // ---- Planning and reading ----

  datatype Planned = Planned(src: HostPath, dest: HostPath)

  datatype Copy = Copy(key: FileKey, bytes: Bytes, present: bool)

  function PlanCopies(project: Project, sources: seq<HostPath>, extras: seq<HostPath>): (r: seq<Planned>)
    ensures |r| == |sources| + |extras|
    ensures forall i :: 0 <= i < |r| ==>
      r[i].src == (sources + extras)[i] && r[i].dest == Destination(project, r[i].src)
  {
    var all := sources + extras;
    seq(|all|, i requires 0 <= i < |all| => Planned(all[i], Destination(project, all[i])))
  }

  function KeyOf(root: HostPath, path: HostPath): Option<FileKey> {
    if root <= path && path[|root|..] != [] && ValidPath(path[|root|..]) then Some(path[|root|..]) else None
  }

  // The project's file when it has one, else the host's.
  function SourceBytes(project: Project, files: Tree, disk: map<HostPath, Bytes>, src: HostPath): Option<Bytes> {
    var key := KeyOf(project.root, src);
    if key.Some? && key.value in files then Some(files[key.value])
    else if src in disk then Some(disk[src])
    else None
  }

  function CopyOf(project: Project, files: Tree, disk: map<HostPath, Bytes>, planned: Planned)
    : Result<Copy, CompileError>
  {
    match KeyOf(project.root, planned.dest)
    case None => Err(Unaddressable(planned.dest))
    case Some(key) =>
      match SourceBytes(project, files, disk, planned.src)
      case None => Err(Unreadable(planned.src))
      case Some(bytes) => Ok(Copy(key, bytes, key in files))
  }

  // The first failure, or every copy.
  function Copies(project: Project, files: Tree, disk: map<HostPath, Bytes>, plan: seq<Planned>)
    : (r: Result<seq<Copy>, CompileError>)
    ensures r.Ok? ==> |r.value| == |plan| && forall i :: 0 <= i < |plan| ==>
      CopyOf(project, files, disk, plan[i]) == Ok(r.value[i])
    decreases |plan|
  {
    if plan == [] then Ok([])
    else
      var last := |plan| - 1;
      match Copies(project, files, disk, plan[..last])
      case Err(error) => Err(error)
      case Ok(copies) =>
        match CopyOf(project, files, disk, plan[last])
        case Err(error) => Err(error)
        case Ok(copy) => Ok(copies + [copy])
  }

  lemma {:induction false} CopiesStop(project: Project, files: Tree, disk: map<HostPath, Bytes>, plan: seq<Planned>,
                                      n: nat)
    requires n <= |plan| && Copies(project, files, disk, plan[..n]).Err?
    ensures Copies(project, files, disk, plan) == Copies(project, files, disk, plan[..n])
    decreases |plan| - n
  {
    if n == |plan| {
      assert plan[..n] == plan;
    } else {
      assert plan[..n + 1][..n] == plan[..n];
      CopiesStop(project, files, disk, plan, n + 1);
    }
  }

  // ---- Staging ----

  function StageOf(staged: set<FileKey>, copy: Copy): Change {
    if copy.present || copy.key in staged then ReplaceFile(copy.key, copy.bytes) else CreateFile(copy.key, copy.bytes)
  }

  function KeysOf(copies: seq<Copy>): set<FileKey> {
    set copy <- copies :: copy.key
  }

  function Staged(copies: seq<Copy>): seq<Change>
    decreases |copies|
  {
    if copies == [] then []
    else
      var last := |copies| - 1;
      Staged(copies[..last]) + [StageOf(KeysOf(copies[..last]), copies[last])]
  }

  // Every copy laid over the tree, the last one to a key winning.
  function Laid(files: Tree, copies: seq<Copy>): Tree
    decreases |copies|
  {
    if copies == [] then files
    else
      var last := |copies| - 1;
      Laid(files, copies[..last])[copies[last].key := copies[last].bytes]
  }

  lemma {:induction false} LaidKeys(files: Tree, copies: seq<Copy>, key: FileKey)
    ensures key in Laid(files, copies) <==> key in files || key in KeysOf(copies)
    decreases |copies|
  {
    if copies != [] {
      var last := |copies| - 1;
      LaidKeys(files, copies[..last], key);
      KeysOfLast(copies, key);
    }
  }

  lemma KeysOfLast(copies: seq<Copy>, key: FileKey)
    requires copies != []
    ensures key in KeysOf(copies) <==> key in KeysOf(copies[..|copies| - 1]) || key == copies[|copies| - 1].key
  {
    assert copies == copies[..|copies| - 1] + [copies[|copies| - 1]];
    assert copies[|copies| - 1] in copies;
  }

  predicate ExistsIn(files: Tree, copies: seq<Copy>) {
    forall copy <- copies :: copy.present == (copy.key in files)
  }

  // Every staged create and replace is legal where it stands in the batch.
  lemma {:induction false} StagedApplies(files: Tree, copies: seq<Copy>)
    requires ExistsIn(files, copies)
    ensures ApplyAll(files, Staged(copies)) == Some(Laid(files, copies))
    decreases |copies|
  {
    if copies != [] {
      var last := |copies| - 1;
      var init, copy := copies[..last], copies[last];
      assert copies == init + [copy];
      StagedApplies(files, init);
      LaidKeys(files, init, copy.key);
      var change := StageOf(KeysOf(init), copy);
      ApplyConcat(files, Staged(init), [change]);
      ApplyOne(Laid(files, init), change);
    }
  }

  // Copy `i` is the last one to its key.
  ghost predicate LastTo(copies: seq<Copy>, key: FileKey, i: nat) {
    i < |copies| && copies[i].key == key && forall j :: i < j < |copies| ==> copies[j].key != key
  }

  lemma {:induction false} LaidAt(files: Tree, copies: seq<Copy>, key: FileKey)
    ensures (exists i: nat :: LastTo(copies, key, i)) || ContentAt(Laid(files, copies), key) == ContentAt(files, key)
    ensures forall i: nat :: LastTo(copies, key, i) ==> ContentAt(Laid(files, copies), key) == Some(copies[i].bytes)
    decreases |copies|
  {
    if copies != [] {
      var last := |copies| - 1;
      var init := copies[..last];
      LaidAt(files, init, key);
      if copies[last].key == key {
        assert LastTo(copies, key, last);
        forall i: nat | LastTo(copies, key, i) ensures i == last {
        }
      } else {
        forall i: nat | LastTo(copies, key, i) ensures LastTo(init, key, i) {
        }
        forall i: nat | LastTo(init, key, i) ensures LastTo(copies, key, i) {
        }
      }
    }
  }

  // ---- The whole compile ----

  function Compiled(store: Store, project: Project, plan: seq<Planned>, disk: map<HostPath, Bytes>, succeeds: bool)
    : Result<Store, CompileError>
  {
    match Copies(project, store.files, disk, plan)
    case Err(error) => Err(error)
    case Ok(copies) =>
      match Commit(store, store.revision, Staged(copies), succeeds)
      case Err(error) => Err(Transaction(error))
      case Ok(committed) => Ok(committed)
  }

  // ---- What a compile comes to, in terms of the tree and the disk ----

  ghost predicate Addressable(project: Project, path: HostPath) {
    exists key: FileKey :: path == project.root + key
  }

  // A path of a project file.
  ghost predicate InTree(project: Project, files: Tree, path: HostPath) {
    exists key: FileKey :: path == project.root + key && key in files
  }

  // A destination the project can address, and a source someone can read.
  ghost predicate Copyable(project: Project, files: Tree, disk: map<HostPath, Bytes>, planned: Planned) {
    Addressable(project, planned.dest) && (InTree(project, files, planned.src) || planned.src in disk)
  }

  // The file `key` of `after` holds what `src` held: the project's own bytes if it is a project file,
  // whatever the disk holds, and the disk's otherwise.
  ghost predicate HoldsSource(project: Project, before: Tree, disk: map<HostPath, Bytes>, after: Tree, key: FileKey,
                              src: HostPath)
  {
    && (forall k: FileKey :: src == project.root + k && k in before ==> ContentAt(after, key) == Some(before[k]))
    && (!InTree(project, before, src) ==> src in disk && ContentAt(after, key) == Some(disk[src]))
  }

  // One file after the copy: what its last planned source held before, or what it held itself.
  ghost predicate KeyCopied(project: Project, plan: seq<Planned>, disk: map<HostPath, Bytes>, before: Tree,
                            after: Tree, key: FileKey)
  {
    && (forall i: nat :: PlannedLast(project, plan, key, i) ==>
          HoldsSource(project, before, disk, after, key, plan[i].src))
    && ((forall i: nat :: !PlannedLast(project, plan, key, i)) ==> ContentAt(after, key) == ContentAt(before, key))
  }

  lemma KeyOfExactly(root: HostPath, path: HostPath, key: FileKey)
    ensures KeyOf(root, path) == Some(key) <==> path == root + key
  {
    if root <= path {
      assert path == root + path[|root|..];
    }
    assert (root + key)[|root|..] == key;
  }

  lemma KeyOfAddressable(project: Project, path: HostPath)
    ensures KeyOf(project.root, path).Some? <==> Addressable(project, path)
  {
    if KeyOf(project.root, path).Some? {
      KeyOfExactly(project.root, path, KeyOf(project.root, path).value);
    }
    if Addressable(project, path) {
      var key: FileKey :| path == project.root + key;
      KeyOfExactly(project.root, path, key);
    }
  }

  lemma SourceExactly(project: Project, files: Tree, disk: map<HostPath, Bytes>, src: HostPath)
    ensures SourceBytes(project, files, disk, src).Some? <==> InTree(project, files, src) || src in disk
    ensures forall k: FileKey :: src == project.root + k && k in files ==>
      SourceBytes(project, files, disk, src) == Some(files[k])
    ensures !InTree(project, files, src) && src in disk ==> SourceBytes(project, files, disk, src) == Some(disk[src])
  {
    var own := KeyOf(project.root, src);
    forall k: FileKey | src == project.root + k ensures own == Some(k) {
      KeyOfExactly(project.root, src, k);
    }
    if own.Some? {
      KeyOfExactly(project.root, src, own.value);
    }
  }

  lemma CopyableExactly(project: Project, files: Tree, disk: map<HostPath, Bytes>, planned: Planned)
    ensures CopyOf(project, files, disk, planned).Ok? <==> Copyable(project, files, disk, planned)
    ensures var r := CopyOf(project, files, disk, planned);
      r.Ok? || r.error ==
        if Addressable(project, planned.dest) then Unreadable(planned.src) else Unaddressable(planned.dest)
  {
    KeyOfAddressable(project, planned.dest);
    SourceExactly(project, files, disk, planned.src);
  }

  lemma LaidIsCopied(project: Project, files: Tree, disk: map<HostPath, Bytes>, plan: seq<Planned>,
                     copies: seq<Copy>, key: FileKey)
    requires Copies(project, files, disk, plan) == Ok(copies)
    ensures KeyCopied(project, plan, disk, files, Laid(files, copies), key)
  {
    LaidAt(files, copies, key);
    forall i: nat ensures PlannedLast(project, plan, key, i) <==> LastTo(copies, key, i) {
      PlannedIsLast(project, files, disk, plan, copies, key, i);
    }
    forall i: nat | PlannedLast(project, plan, key, i)
      ensures HoldsSource(project, files, disk, Laid(files, copies), key, plan[i].src)
    {
      assert CopyOf(project, files, disk, plan[i]) == Ok(copies[i]);
      SourceExactly(project, files, disk, plan[i].src);
    }
  }

  // A simultaneous copy: each destination holds what the last source planned to it held before the
  // compile, and every other file is as it was. Only an unaddressable destination, an unreadable
  // source, or the write itself can fail it.
  lemma CompileIsSimultaneous(
      store: Store, project: Project, plan: seq<Planned>, disk: map<HostPath, Bytes>, succeeds: bool)
    ensures var r := Compiled(store, project, plan, disk, succeeds);
      && (r.Ok? <==>
            (plan == [] || succeeds) && forall planned <- plan :: Copyable(project, store.files, disk, planned))
      && (r.Ok? ==> r.value.cache == store.cache)
      && (r.Ok? ==> forall key :: KeyCopied(project, plan, disk, store.files, r.value.files, key))
  {
    CopiesSucceed(project, store.files, disk, plan);
    var gathered := Copies(project, store.files, disk, plan);
    if gathered.Ok? {
      var copies := gathered.value;
      var after := Laid(store.files, copies);
      assert ExistsIn(store.files, copies);
      StagedApplies(store.files, copies);
      StagedSome(copies);
      forall key ensures KeyCopied(project, plan, disk, store.files, after, key) {
        LaidIsCopied(project, store.files, disk, plan, copies, key);
      }
    }
  }

  lemma StagedSome(copies: seq<Copy>)
    ensures Staged(copies) == [] <==> copies == []
  {
  }

  // Plan entry `i` is the last one to the file `key`.
  ghost predicate PlannedLast(project: Project, plan: seq<Planned>, key: FileKey, i: nat) {
    && i < |plan| && plan[i].dest == project.root + key
    && forall j :: i < j < |plan| ==> plan[j].dest != project.root + key
  }

  lemma PlannedIsLast(project: Project, files: Tree, disk: map<HostPath, Bytes>, plan: seq<Planned>,
                      copies: seq<Copy>, key: FileKey, i: nat)
    requires Copies(project, files, disk, plan) == Ok(copies)
    ensures PlannedLast(project, plan, key, i) <==> LastTo(copies, key, i)
  {
    forall j | 0 <= j < |plan| ensures plan[j].dest == project.root + key <==> copies[j].key == key {
      assert CopyOf(project, files, disk, plan[j]) == Ok(copies[j]);
      KeyOfExactly(project.root, plan[j].dest, key);
    }
  }

  lemma {:induction false} CopiesSucceed(project: Project, files: Tree, disk: map<HostPath, Bytes>, plan: seq<Planned>)
    ensures Copies(project, files, disk, plan).Ok? <==>
      forall planned <- plan :: Copyable(project, files, disk, planned)
    decreases |plan|
  {
    if plan != [] {
      var last := |plan| - 1;
      CopiesSucceed(project, files, disk, plan[..last]);
      assert plan == plan[..last] + [plan[last]] && plan[last] in plan;
      CopyableExactly(project, files, disk, plan[last]);
      assert forall planned <- plan[..last] :: planned in plan;
    }
  }

  // The first entry that cannot be copied.
  ghost predicate FirstUncopyable(project: Project, files: Tree, disk: map<HostPath, Bytes>, plan: seq<Planned>,
                                  i: nat)
  {
    && i < |plan| && !Copyable(project, files, disk, plan[i])
    && forall j :: 0 <= j < i ==> Copyable(project, files, disk, plan[j])
  }

  // A compile that cannot copy everything fails at the first entry it cannot copy, for its destination
  // if that is not in the project, else for its source.
  lemma CompileFailsFirst(store: Store, project: Project, plan: seq<Planned>, disk: map<HostPath, Bytes>,
                          succeeds: bool, i: nat)
    requires FirstUncopyable(project, store.files, disk, plan, i)
    ensures Compiled(store, project, plan, disk, succeeds) == Err(
      if Addressable(project, plan[i].dest) then Unreadable(plan[i].src) else Unaddressable(plan[i].dest))
  {
    var files := store.files;
    assert forall planned <- plan[..i] :: Copyable(project, files, disk, planned);
    CopiesSucceed(project, files, disk, plan[..i]);
    CopiesStep(project, files, disk, plan, i);
    CopyableExactly(project, files, disk, plan[i]);
    CopiesStop(project, files, disk, plan, i + 1);
  }

  lemma CopiesStep(project: Project, files: Tree, disk: map<HostPath, Bytes>, plan: seq<Planned>, i: nat)
    requires i < |plan|
    ensures Copies(project, files, disk, plan[..i + 1]) ==
      match Copies(project, files, disk, plan[..i]) {
        case Err(error) => Err(error)
        case Ok(copies) =>
          match CopyOf(project, files, disk, plan[i])
          case Err(error) => Err(error)
          case Ok(copy) => Ok(copies + [copy])
      }
  {
    assert plan[..i + 1][..i] == plan[..i];
  }

  // Reading happens entirely before staging.
  method GatherCopies(project: Project, files: Tree, disk: map<HostPath, Bytes>, plan: seq<Planned>)
    returns (r: Result<seq<Copy>, CompileError>)
    ensures r == Copies(project, files, disk, plan)
  {
    var copies: seq<Copy> := [];
    for i := 0 to |plan|
      invariant Copies(project, files, disk, plan[..i]) == Ok(copies)
    {
      CopiesStep(project, files, disk, plan, i);
      var copy := CopyOf(project, files, disk, plan[i]);
      if copy.Err? {
        CopiesStop(project, files, disk, plan, i + 1);
        return Err(copy.error);
      }
      copies := copies + [copy.value];
    }
    assert plan[..|plan|] == plan;
    r := Ok(copies);
  }

  // The keys staged as creations are those of the copies whose file was not there.
  ghost predicate Tracks(copies: seq<Copy>, staged: set<FileKey>) {
    staged <= KeysOf(copies) && forall copy <- copies :: copy.present || copy.key in staged
  }

  lemma StageStep(files: Tree, copies: seq<Copy>, i: nat, staged: set<FileKey>)
    requires ExistsIn(files, copies) && i < |copies| && Tracks(copies[..i], staged)
    ensures var copy := copies[i];
      var replacing := copy.present || copy.key in staged;
      && Staged(copies[..i + 1]) == Staged(copies[..i])
           + [if replacing then ReplaceFile(copy.key, copy.bytes) else CreateFile(copy.key, copy.bytes)]
      && Tracks(copies[..i + 1], if replacing then staged else staged + {copy.key})
  {
    var copy, before := copies[i], copies[..i];
    assert copies[..i + 1][..i] == before && copies[..i + 1] == before + [copy];
    assert copy in copies && forall other <- before :: other in copies;
    KeysOfLast(copies[..i + 1], copy.key);
    assert !copy.present && copy.key in KeysOf(before) ==> copy.key in staged;
  }

  // The create-or-replace choice, one copy at a time.
  method StageCopies(ghost files: Tree, copies: seq<Copy>) returns (changes: seq<Change>)
    requires ExistsIn(files, copies)
    ensures changes == Staged(copies)
  {
    changes := [];
    var staged: set<FileKey> := {};
    for i := 0 to |copies|
      invariant changes == Staged(copies[..i]) && Tracks(copies[..i], staged)
    {
      StageStep(files, copies, i, staged);
      var copy := copies[i];
      if copy.present || copy.key in staged {
        changes := changes + [ReplaceFile(copy.key, copy.bytes)];
      } else {
        changes := changes + [CreateFile(copy.key, copy.bytes)];
        staged := staged + {copy.key};
      }
    }
    assert copies[..|copies|] == copies;
  }

  method CompileIn(storage: ProjectStorage, project: Project, sources: seq<HostPath>, extras: seq<HostPath>,
                   disk: map<HostPath, Bytes>, succeeds: bool) returns (r: Result<(), CompileError>)
    modifies storage
    ensures match Compiled(old(storage.Value()), project, PlanCopies(project, sources, extras), disk, succeeds)
      case Ok(after) => r == Ok(()) && storage.Value() == after
      case Err(error) => r == Err(error) && storage.Value() == old(storage.Value())
  {
    var revision := storage.revision;
    var copies := GatherCopies(project, storage.files, disk, PlanCopies(project, sources, extras));
    if copies.Err? {
      return Err(copies.error);
    }
    var changes := StageCopies(storage.files, copies.value);
    var committed := storage.CommitChanges(revision, changes, succeeds);
    r := if committed.Ok? then Ok(()) else Err(Transaction(committed.error));
  }

  // The in-memory backend: its storage is checked out while a compile is in flight.
  class BuiltinToolchain {
    var cell: Option<ProjectStorage>

    constructor (storage: ProjectStorage)
      ensures cell == Some(storage)
    {
      cell := Some(storage);
    }

    method TakeStorage() returns (storage: Result<ProjectStorage, CompileError>)
      modifies this
      ensures cell == None
      ensures old(cell).None? ==> storage == Err(Unsupported)
      ensures old(cell).Some? ==> storage == Ok(old(cell).value)
    {
      storage := if cell.Some? then Ok(cell.value) else Err(Unsupported);
      cell := None;
    }

    // Put back on every exit; a compile of a checked-out backend changes nothing.
    method Compile(project: Project, sources: seq<HostPath>, extras: seq<HostPath>,
                   disk: map<HostPath, Bytes>, succeeds: bool) returns (r: Result<(), CompileError>)
      modifies this, if cell.Some? then {cell.value} else {}
      ensures cell == old(cell)
      ensures cell.None? ==> r == Err(Unsupported)
      ensures cell.Some? ==>
        match Compiled(old(cell.value.Value()), project, PlanCopies(project, sources, extras), disk, succeeds)
        case Ok(after) => r == Ok(()) && cell.value.Value() == after
        case Err(error) => r == Err(error) && cell.value.Value() == old(cell.value.Value())
    {
      var storage := TakeStorage();
      if storage.Err? {
        return Err(storage.error);
      }
      r := CompileIn(storage.value, project, sources, extras, disk, succeeds);
      cell := Some(storage.value);
    }
  }
}
