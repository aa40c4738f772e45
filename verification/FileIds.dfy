// The in-process compiler's file ids: how one compile numbers its sources, and how a failure's id is
// walked back to the file it names.
module FileIds {
  import opened Text
  import opened Positions

  datatype TreeFile = TreeFile(path: string, bytes: Bytes)

  datatype File = File(path: string, text: string)

  // A linked library, with the Java its module publishes.
  datatype Library = Library(name: string, sources: seq<File>)

  // A native package's module, with what its interface section decodes to.
  datatype Module = Module(name: string, sources: Option<seq<File>>)

  datatype Numbered = Numbered(id: nat, file: File)

  datatype Message = NotText(path: string) | NotLibrary(name: string) | TwoModules(name: string)

  datatype Numbering = Numbering(roots: seq<Numbered>, libraryRoots: seq<Numbered>, linked: seq<Library>)

  const MAX_ID: nat := 0xFFFF_FFFF

  // `u32::try_from(n).unwrap_or(u32::MAX)`.
  function Saturate(n: nat): (id: nat)
    ensures id <= MAX_ID
  {
    if n <= MAX_ID then n else MAX_ID
  }

  // ---- The sources of one compile, in order ----

  predicate AllText(decode: Bytes -> Option<string>, tree: seq<TreeFile>) {
    forall source <- tree :: decode(source.bytes).Some?
  }

  function TreeFiles(decode: Bytes -> Option<string>, tree: seq<TreeFile>): (r: seq<File>)
    requires AllText(decode, tree)
    ensures |r| == |tree| && forall i :: 0 <= i < |r| ==> r[i] == File(tree[i].path, decode(tree[i].bytes).value)
  {
    seq(|tree|, i requires 0 <= i < |tree| => File(tree[i].path, decode(tree[i].bytes).value))
  }

  function LinkedFiles(linked: seq<Library>): seq<File>
    decreases |linked|
  {
    if linked == [] then [] else LinkedFiles(linked[..|linked| - 1]) + linked[|linked| - 1].sources
  }

  function AllFiles(decode: Bytes -> Option<string>, tree: seq<TreeFile>, natives: seq<File>,
                    linked: seq<Library>): seq<File>
    requires AllText(decode, tree)
  {
    TreeFiles(decode, tree) + natives + LinkedFiles(linked)
  }

  // Files numbered from `first` on.
  function NumberedFrom(first: nat, files: seq<File>): (r: seq<Numbered>)
    ensures |r| == |files| && forall i :: 0 <= i < |r| ==> r[i] == Numbered(Saturate(first + i), files[i])
  {
    seq(|files|, i requires 0 <= i < |files| => Numbered(Saturate(first + i), files[i]))
  }

  lemma NumberedAppend(first: nat, a: seq<File>, b: seq<File>)
    ensures NumberedFrom(first, a + b) == NumberedFrom(first, a) + NumberedFrom(first + |a|, b)
  {
  }

  lemma LinkedStep(linked: seq<Library>, i: nat)
    requires i < |linked|
    ensures LinkedFiles(linked[..i + 1]) == LinkedFiles(linked[..i]) + linked[i].sources
  {
    assert linked[..i + 1][..i] == linked[..i];
  }

  lemma {:induction false} LinkedPrefix(linked: seq<Library>, i: nat)
    requires i <= |linked|
    ensures LinkedFiles(linked[..i]) <= LinkedFiles(linked)
    decreases |linked| - i
  {
    if i == |linked| {
      assert linked[..i] == linked;
    } else {
      LinkedStep(linked, i);
      LinkedPrefix(linked, i + 1);
    }
  }

  // ---- Numbering ----

  predicate Clashing(modules: seq<Module>, name: string) {
    exists other <- modules :: other.name == name
  }

  predicate Linkable(modules: seq<Module>, libraries: seq<Library>) {
    && (forall item <- modules :: item.sources.Some?)
    && (forall library <- libraries :: !Clashing(modules, library.name))
  }

  function Links(modules: seq<Module>, libraries: seq<Library>): seq<Library>
    requires forall item <- modules :: item.sources.Some?
  {
    seq(|modules|, i requires 0 <= i < |modules| => Library(modules[i].name, modules[i].sources.value)) + libraries
  }

  method NumberTree(decode: Bytes -> Option<string>, tree: seq<TreeFile>)
    returns (roots: seq<Numbered>, messages: seq<Message>)
    ensures messages == [] <==> AllText(decode, tree)
    ensures forall message :: message in messages <==>
      exists source <- tree :: decode(source.bytes).None? && message == NotText(source.path)
    ensures AllText(decode, tree) ==> roots == NumberedFrom(0, TreeFiles(decode, tree))
  {
    roots, messages := [], [];
    for i := 0 to |tree|
      invariant messages == [] <==> AllText(decode, tree[..i])
      invariant forall message :: message in messages <==>
        exists source <- tree[..i] :: decode(source.bytes).None? && message == NotText(source.path)
      invariant messages == [] ==> roots == NumberedFrom(0, TreeFiles(decode, tree[..i]))
    {
      assert tree[..i + 1] == tree[..i] + [tree[i]];
      var text := decode(tree[i].bytes);
      if text.None? {
        messages := messages + [NotText(tree[i].path)];
        continue;
      }
      roots := roots + [Numbered(Saturate(i), File(tree[i].path, text.value))];
    }
    assert tree[..|tree|] == tree;
  }

  method LinkAll(modules: seq<Module>, libraries: seq<Library>) returns (linked: seq<Library>, messages: seq<Message>)
    ensures messages == [] <==> Linkable(modules, libraries)
    ensures forall message :: message in messages <==>
      || (exists item <- modules :: item.sources.None? && message == NotLibrary(item.name))
      || (exists library <- libraries :: Clashing(modules, library.name) && message == TwoModules(library.name))
    ensures messages == [] ==> linked == Links(modules, libraries)
  {
    linked, messages := [], [];
    for i := 0 to |modules|
      invariant messages == [] <==> forall item <- modules[..i] :: item.sources.Some?
      invariant forall message :: message in messages <==>
        exists item <- modules[..i] :: item.sources.None? && message == NotLibrary(item.name)
      invariant messages == [] ==> linked == Links(modules[..i], [])
    {
      assert modules[..i + 1] == modules[..i] + [modules[i]];
      match modules[i].sources {
        case Some(sources) => linked := linked + [Library(modules[i].name, sources)];
        case None => messages := messages + [NotLibrary(modules[i].name)];
      }
    }
    assert modules[..|modules|] == modules;
    for i := 0 to |libraries|
      invariant messages == [] <==> Linkable(modules, libraries[..i])
      invariant forall message :: message in messages <==>
        || (exists item <- modules :: item.sources.None? && message == NotLibrary(item.name))
        || (exists library <- libraries[..i] ::
              Clashing(modules, library.name) && message == TwoModules(library.name))
      invariant messages == [] ==> linked == Links(modules, libraries[..i])
    {
      assert libraries[..i + 1] == libraries[..i] + [libraries[i]];
      if Clashing(modules, libraries[i].name) {
        messages := messages + [TwoModules(libraries[i].name)];
      }
      linked := linked + [libraries[i]];
    }
    assert libraries[..|libraries|] == libraries;
  }

  // `compile_all`, up to the roots it hands the compiler: the tree, then the native sources, then
  // each linked library's.
  method NumberAll(decode: Bytes -> Option<string>, tree: seq<TreeFile>, natives: seq<File>,
                   modules: seq<Module>, libraries: seq<Library>)
    returns (r: Result<Numbering, seq<Message>>)
    ensures r.Ok? <==> AllText(decode, tree) && Linkable(modules, libraries)
    ensures r.Ok? ==>
      && r.value.linked == Links(modules, libraries)
      && |r.value.roots| == |tree| + |natives|
      && r.value.roots + r.value.libraryRoots == NumberedFrom(0, AllFiles(decode, tree, natives, r.value.linked))
    ensures r.Err? ==> r.error != []
  {
    var roots, messages := NumberTree(decode, tree);
    if messages != [] {
      return Err(messages);
    }
    var projectFiles := |roots|;
    ghost var files := TreeFiles(decode, tree);
    for i := 0 to |natives|
      invariant roots == NumberedFrom(0, files + natives[..i])
    {
      assert files + natives[..i + 1] == files + natives[..i] + [natives[i]];
      NumberedAppend(0, files + natives[..i], [natives[i]]);
      roots := roots + [Numbered(Saturate(projectFiles + i), natives[i])];
    }
    assert natives[..|natives|] == natives;
    var linked;
    linked, messages := LinkAll(modules, libraries);
    if messages != [] {
      return Err(messages);
    }
    var libraryRoots := NumberLinked(|roots|, linked);
    NumberedAppend(0, files + natives, LinkedFiles(linked));
    r := Ok(Numbering(roots, libraryRoots, linked));
  }

  method NumberLinked(first: nat, linked: seq<Library>) returns (libraryRoots: seq<Numbered>)
    ensures libraryRoots == NumberedFrom(first, LinkedFiles(linked))
  {
    libraryRoots := [];
    for l := 0 to |linked|
      invariant libraryRoots == NumberedFrom(first, LinkedFiles(linked[..l]))
    {
      ghost var before := LinkedFiles(linked[..l]);
      var sources := linked[l].sources;
      LinkedStep(linked, l);
      for i := 0 to |sources|
        invariant libraryRoots == NumberedFrom(first, before + sources[..i])
      {
        assert before + sources[..i + 1] == before + sources[..i] + [sources[i]];
        NumberedAppend(first, before + sources[..i], [sources[i]]);
        libraryRoots := libraryRoots + [Numbered(Saturate(first + |libraryRoots|), sources[i])];
      }
      assert sources[..|sources|] == sources;
    }
    assert linked[..|linked|] == linked;
  }

  // ---- Walking an id back ----

  function SourceAt(decode: Bytes -> Option<string>, tree: seq<TreeFile>, rest: seq<File>, id: nat): Option<File> {
    if id < |tree| then
      match decode(tree[id].bytes)
      case Some(text) => Some(File(tree[id].path, text))
      case None => None
    else if id - |tree| < |rest| then Some(rest[id - |tree|])
    else None
  }

  // `wasm_source`: a countdown across the three lists, which never counts below zero.
  method WasmSource(id: nat, decode: Bytes -> Option<string>, tree: seq<TreeFile>, natives: seq<File>,
                    linked: seq<Library>) returns (r: Option<File>)
    ensures r == SourceAt(decode, tree, natives + LinkedFiles(linked), id)
  {
    var remaining: nat := id;
    if remaining < |tree| {
      var text := decode(tree[remaining].bytes);
      return if text.Some? then Some(File(tree[remaining].path, text.value)) else None;
    }
    remaining := remaining - |tree|;
    ghost var start := remaining;
    for i := 0 to |natives|
      invariant remaining == start - i && i <= start
    {
      if remaining == 0 {
        return Some(natives[i]);
      }
      remaining := remaining - 1;
    }
    r := LinkedSource(remaining, linked);
  }

  method LinkedSource(start: nat, linked: seq<Library>) returns (r: Option<File>)
    ensures r == if start < |LinkedFiles(linked)| then Some(LinkedFiles(linked)[start]) else None
  {
    var remaining: nat := start;
    for l := 0 to |linked|
      invariant start == |LinkedFiles(linked[..l])| + remaining
    {
      LinkedStep(linked, l);
      LinkedPrefix(linked, l + 1);
      var sources := linked[l].sources;
      for i := 0 to |sources|
        invariant start == |LinkedFiles(linked[..l])| + i + remaining
      {
        if remaining == 0 {
          assert LinkedFiles(linked)[start] == LinkedFiles(linked[..l + 1])[start];
          return Some(sources[i]);
        }
        remaining := remaining - 1;
      }
    }
    assert linked[..|linked|] == linked;
    r := None;
  }

  // The id given to the `k`-th source resolves to it, up to the largest id; past that, every source
  // shares the last id, which names one of them.
  lemma IdsResolve(decode: Bytes -> Option<string>, tree: seq<TreeFile>, natives: seq<File>, linked: seq<Library>,
                   k: nat)
    requires AllText(decode, tree) && k < |AllFiles(decode, tree, natives, linked)|
    ensures var files := AllFiles(decode, tree, natives, linked);
      var id := NumberedFrom(0, files)[k].id;
      && id == (if k <= 4_294_967_295 then k else 4_294_967_295)
      && SourceAt(decode, tree, natives + LinkedFiles(linked), id) == Some(files[id])
  {
    var files := AllFiles(decode, tree, natives, linked);
    assert files == TreeFiles(decode, tree) + (natives + LinkedFiles(linked));
  }

  // ---- Reporting a failure ----

  datatype Report = Bare | At(path: string, position: Position)

  method WasmFailure(location: Option<(nat, nat)>, decode: Bytes -> Option<string>, tree: seq<TreeFile>,
                     natives: seq<File>, linked: seq<Library>) returns (report: Report)
    ensures report == ReportOf(location, decode, tree, natives + LinkedFiles(linked))
    ensures forall k: nat, i: nat :: FailsAt(location, decode, tree, natives, linked, k, i) ==>
      PointsBack(report, AllFiles(decode, tree, natives, linked)[k], i)
  {
    forall k: nat, i: nat | FailsAt(location, decode, tree, natives, linked, k, i)
      ensures PointsBack(ReportOf(location, decode, tree, natives + LinkedFiles(linked)),
                         AllFiles(decode, tree, natives, linked)[k], i)
    {
      FailurePointsBack(location, decode, tree, natives, linked, k, i);
    }
    if location.None? {
      return Bare;
    }
    var source := WasmSource(location.value.0, decode, tree, natives, linked);
    if source.None? {
      return Bare;
    }
    var position := LineColumn(source.value.text, location.value.1);
    report := At(source.value.path, position);
  }

  function ReportOf(location: Option<(nat, nat)>, decode: Bytes -> Option<string>, tree: seq<TreeFile>,
                    rest: seq<File>): Report
  {
    if location.None? then Bare
    else
      match SourceAt(decode, tree, rest, location.value.0)
      case None => Bare
      case Some(file) => At(file.path, LineColumnOf(file.text, location.value.1))
  }

  // A failure at a character boundary of the `k`-th source is reported under that source's path, at
  // the position whose byte range starts there, wherever a position can name it.
  // The failure is in the k-th source, at the i-th character.
  predicate FailsAt(location: Option<(nat, nat)>, decode: Bytes -> Option<string>, tree: seq<TreeFile>,
                    natives: seq<File>, linked: seq<Library>, k: nat, i: nat)
  {
    && AllText(decode, tree)
    && var files := AllFiles(decode, tree, natives, linked);
       && k < |files| && k <= 4_294_967_295 && i <= |files[k].text|
       && location == Some((NumberedFrom(0, files)[k].id, Offset(files[k].text, i)))
  }

  // The report names the file, and its position resolves to where the failure was.
  predicate PointsBack(report: Report, file: File, i: nat)
    requires i <= |file.text|
  {
    && report.At? && report.path == file.path
    && ByteRangeOf(report.position, file.text)
         == if Resolvable(file.text, i) then Some((Offset(file.text, i), RangeEnd(file.text, i))) else None
  }

  lemma FailurePointsBack(location: Option<(nat, nat)>, decode: Bytes -> Option<string>, tree: seq<TreeFile>,
                          natives: seq<File>, linked: seq<Library>, k: nat, i: nat)
    requires FailsAt(location, decode, tree, natives, linked, k, i)
    ensures PointsBack(ReportOf(location, decode, tree, natives + LinkedFiles(linked)),
                       AllFiles(decode, tree, natives, linked)[k], i)
  {
    IdsResolve(decode, tree, natives, linked, k);
    OffsetRoundTrip(AllFiles(decode, tree, natives, linked)[k].text, i);
  }
}
