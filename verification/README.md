# Verified model of jals

jals is a build tool for Java projects. This project models, in Dafny, the parts of it whose
correctness depends on several functions agreeing, and proves what they promise together:

- the build-script cache and publication engine: fingerprints, the persisted state record, recovery,
  reconciliation of generated files, the commit, and the ordered persistence behind it;
- three pairs of programs that must undo each other: the Minecraft runtime table and its parser, JDK
  argument files, and byte offsets against line and column;
- three in-process compilers' bookkeeping: the built-in copy transaction, the wasm compile's file
  ids, and the top-level class-file codec with its constant-pool table (section 4.1 of the Java
  Virtual Machine Specification).

`dafny verify dfyconfig.toml` checks everything.

## How it is laid out

| files | what they hold |
| --- | --- |
| `Orders`, `Maps`, `Text`, `BigEndian` | strict orders and sorted lists, map laws, UTF-8 and splitting, fixed-width integers |
| `Paths`, `Identity`, `Model` | portable paths and their two orders, cache provenance, the entities of a build |
| `Cache`, `Fingerprint`, `StateCodec` | the write-once cache and its index, what a fingerprint covers, the state record |
| `Preparation`, `Publication` | `prepare_build_script`, reconciliation, commit, publish, clear, persist |
| `Flights` | persists under way, one backend operation at a time |
| `Refinement`, `Runs`, `Deletion`, `Reverted`, `Rerun`, `CrashSafety`, `Isolation` | the theorems about the engine |
| `Positions`, `RuntimeTable`, `RuntimeGenerator`, `ArgumentFiles` | the print/parse pairs |
| `CommandLines` | planned compiles and runs, and what spilling one into an argument file does to it |
| `ClassFiles`, `BuiltinCompile`, `FileIds` | the in-process compilers |
| `Consistency` | the assumptions below can be met together |

Objects the source updates in place are classes (`ArtifactCache`, `ProjectStorage`,
`BuildScriptSession`, `Host`, `Runtime`, `Destination`, `Reader`, `Writer`, `BuiltinToolchain`); each
method is proved equal to a function of the old state, and the theorems are about those functions.

## What is taken as given

- Script evaluation is an uninterpreted function of the tree, the script, the environment and the
  limits. Theorems that need it to be *honest* say so: two settings that agree on what the first
  run's fingerprint covers give the same result (`Refinement.Honest`).
- JSON is an encoder and a decoder that undo each other (`Platform.Faithful`); task-plan validation,
  UTF-8 validity and manifest parsing are functions of their input.
- Both assumptions hold together of some platform (`Consistency.AssumptionsHoldTogether`).
- A content digest is its content. A digest cannot collide, and a damaged cache entry is one whose
  bytes are not the ones its key names.
- A backend that fails or a process that stops is a number: how many more operations take effect.
  Runs may also lose or damage any stored artifact and forget any index entry.
- How `javac` and `java` read a command line follows their manuals: argument files, `@@`, the `-J`
  options `javac`'s launcher takes, and the main class past which `java` opens no file. Which options
  of `java` take a separate value, and the state `JDK_JAVA_OPTIONS` leaves its launcher in, are
  parameters (`CommandLines.Jdk`).
- Constants, single fields, methods and attributes of a class file have codecs that undo each other
  on the values that belong to a given constant pool; such codecs exist, with wide constants among
  them (`ClassFiles.CodecsExist`).

## What turned out not to hold

1. **Some projects are never cached.** A record lists its files in the order of their path segments
   and is accepted back only when they are in the order of their rendered text. The two differ
   exactly on pairs such as `src/A` and `src.txt`, since `.` sorts before `/`. `RecordReadsBack` gives
   the exact condition, which can be checked before writing; `SiblingNeverRecorded` is the example, and
   `InvertedNeverHits` says that such a project misses in every reachable state.
2. **The fingerprint leaves out more than its documentation says.** `jals-build/README.md` (lines
   687-688) says every project file but `target/jals/build/**`; the code leaves out all of
   `target/jals` and `classes-dir`. The model follows the code: `FingerprintExactly` says what a
   fingerprint sees, `DependencyUnseen` replaces `target/jals/deps/dep.jar` unnoticed, and
   `BuildNeverInvalidatesItself` and
   `CompilingKeepsHits` need the wider exclusion.
3. **A position cannot name the end of an empty or newline-terminated text.** `byte_range` answers
   nothing there, and `OffsetRoundTrip` says that this is the only such boundary.
4. **A table row may be unreadable.** The generator does not check that a path begins with neither
   `[` nor `#`, nor that a size fits a Java `long`. `TableRoundTrip` shows that the selected rows are
   read back exactly when all of them do; `MarkedPathLost` is a library at `#a.jar`, which the generator
   admits and whose row is not read back.
5. **A read class file is not always written back byte for byte.** Reading accepts a constant-pool
   count of zero, and a last `Long` or `Double` declared one slot short; writing then puts another
   count. `ReadWriteExactly` and `RewrittenCount` show that nothing else differs in any file the
   reader of the model accepts; `EmptyPoolNotExact` and `WideTailNotExact` are the two families. One
   input is outside that: a wide entry in the last slot of a pool of 65535. The slot counter steps past
   16 bits there, where a checked build panics and a release build, compiled without overflow checks,
   wraps to zero and reads on. The model stops with an error of its own. Counts of 65536 and more are
   truncated on writing: `WriteReadExactly` gives the exact condition.
6. **A spilled command line does not always mean what it meant.** `SpilledMeaning` is exact: the one
   reference it leaves means the original arguments when the tool reads argument files and finds this
   one, and otherwise what it meant before.
   - With a relative working directory the file is written below the directory jals runs in and looked
     for below the working directory. Both are one only if the working directory is absolute or is
     jals' own (`FindableExactly`); for `project` the tool looks in `project/project`
     (`RelativeRootLoses`). A directory starting with `@` makes the reference an escape.
   - A `java` before JDK 9 reads no argument file (`OldJavaLoses`), as `native.rs` itself notes.
   - Where the file is found, meaning is kept exactly when the tool replaces none of the arguments it
     looks into and, for `javac`, none is a `-J` option, provided none expands to another
     (`SpillKeepsMeaning`; `OwnReferencesKept` shows why that is asked). A planned compile of a thousand
     sources with `@opts` among its flags loses the options (`FlagsFileLost`), and one with `-J-Xmx4g`
     is given it as a compiler option (`LauncherOptionLost`). `java` looks into nothing past its main
     class, so program arguments are safe whatever they are (`ProgramArgumentsVerbatim`,
     `PlainRunKept`).
7. **A changed file can be removed after a restart.** `jals-build/README.md` (lines 697-699) says that
   externally modified stale files are never deleted. While the session knows a path, only the bytes
   last published there are removed (`DeletionSafety`, `EditedFileSurvives`). After a restart ownership
   comes from the cache, which may be behind: publish a file, publish it changed without the persist
   getting through, restart, put the first bytes back, drop the output; the next publish removes them
   (`RevertedFileRemoved`). `RemovalsAreStale` is the exact condition in every state.

## Model

| member | source | states |
| --- | --- | --- |
| Paths.RenderParses | jals-storage/src/value.rs:97-115 | a rendered file key parses back to itself |
| Paths.ParseRenders | jals-storage/src/value.rs:200-210 | a text that parses is the rendering of what it parses to |
| Paths.RenderInjective | jals-storage/src/value.rs:200-210 | different keys never render the same |
| Paths.NameExactly | jals-storage/src/value.rs:23-65 | a name is refused for being empty or a dot name, for a separator, control or reserved character in it, for ending in a dot or a space, or for naming a device before its first dot, in either case |
| Paths.OrderAgreement | jals-storage/src/value.rs:86-88 | segment order and rendered order agree on exactly the pairs that are not inverted |
| Paths.RenderedInOrderExactly | jals-build/src/build_script.rs:1148-1150 | a set of keys written in its own order passes the strict string-order check exactly when no two of its keys are inverted |
| Paths.SiblingFileInverts | jals-build/src/build_script.rs:1148-1160 | `src/A` and `src.txt` are such a pair |
| Identity.FrameUnambiguous | jals-storage/src/cache.rs:276-281 | a length-framed field is told apart from whatever follows it |
| Identity.Transcripts | jals-build/src/build_script.rs:645-668 | what a transcript starts with: the kind, the interface version, and a byte telling the root from a dependency, whose digest follows |
| Identity.ScopePrefixUnambiguous | jals-build/src/build_script.rs:661-667 | kind and scope are determined by the start of a transcript, the root against any digest included |
| Identity.StateIdentity | jals-build/src/build_script.rs:651-653 | equal state provenances come from the same scope and script |
| Identity.OutputIdentity | jals-build/src/build_script.rs:655-659 | equal output provenances come from the same scope, script and output |
| Identity.KindsApart | jals-build/src/build_script.rs:645-668 | no state provenance is an output provenance |
| Identity.ScopesDisjoint | jals-build/src/build_script.rs:645-668 | a provenance belongs to at most one scope |
| Cache.LookupBounded | jals-storage/src/cache.rs:504-535 | bytes found are the ones the key's digest names and within the bound; what is not there, too large or damaged is told apart |
| Cache.PublishOnce | jals-storage/src/cache.rs:537-560 | a publication that succeeds leaves verified bytes under the key, every other entry and the index as they were; it conflicts exactly with other bytes under the key |
| Cache.RunKeeps | jals-storage/src/cache.rs:385-399 | however far a run of cache operations gets, no artifact is overwritten or lost |
| Cache.RunPublishes | jals-build/src/build_script.rs:980-1006 | a run that ends without an error has published every artifact it was asked to |
| Cache.RunSucceedsExactly | jals-storage/src/cache.rs:537-560 | a run of operations succeeds exactly when it may take as long as it needs and everything it publishes is under its own digest, with no other bytes there |
| Cache.ArtifactCache.PublishArtifactBytes | jals-storage/src/cache.rs:537-560 | the mutable cache publishes as the specification does, and an error changes nothing |
| Cache.ArtifactCache.RecordCurrentKey | jals-storage/src/cache.rs:583-587 | the index entry of a key's namespace and provenance becomes its content |
| Cache.ArtifactCache.PerformAll | jals-build/src/build_script.rs:980-1006 | operations take effect in order until the first failure, and not after it |
| Fingerprint.FingerprintCovers | jals-build/src/build_script.rs:1180-1260 | equal fingerprint inputs were taken of the same script, manifest, limits, tracked files, declared values and features |
| Fingerprint.ObservationsDetermine | jals-build/src/build_script.rs:1180-1260 | and the other way round: the inputs change only when one of those does |
| Fingerprint.FingerprintExactly | jals-build/src/build_script.rs:1180-1260 | two projects have equal fingerprint inputs exactly when script, manifest, limits, features, declared values and declared files agree; without declared files, every file that is neither below `target/jals` nor below `classes-dir` must |
| Fingerprint.ClassesUnseen | jals-build/src/build_script.rs:1199-1216 | without declared inputs, whatever changes below `classes-dir`, script and manifest apart, leaves the fingerprint as it was |
| Fingerprint.ClassFileUnseen | jals-build/src/build_script.rs:1199-1216 | concretely, compiling `target/classes/A.class` with `target/classes` as `classes-dir` |
| Fingerprint.DependencyUnseen | jals-build/src/build_script.rs:1199-1213 | without declared inputs, replacing `target/jals/deps/dep.jar`, outside the artifact root, leaves the fingerprint as it was |
| StateCodec.FileSetParses | jals-build/src/build_script.rs:1152-1160 | a written set of keys is accepted exactly when it is in rendered order, and is then that set |
| StateCodec.FileSetUnique | jals-build/src/build_script.rs:1152-1160 | an accepted list is the only one standing for its set |
| StateCodec.InputsAccepted | jals-build/src/build_script.rs:1262-1348 | written fingerprint inputs are accepted exactly when the tracked files are in rendered order and the declared variable names are valid |
| StateCodec.OutputsAccepted | jals-build/src/build_script.rs:1378-1391 | a written output list is accepted exactly when it is in rendered order and strictly below the output root, and then reads back key by key |
| StateCodec.WireAccepted | jals-build/src/build_script.rs:1680-1741 | a written record is valid exactly when the result is recordable, and decodes to its own fields |
| StateCodec.RecordReadsBack | jals-build/src/build_script.rs:1350-1440 | the serialized record of a result reads back as exactly its fingerprint, outputs and directives when it is recordable, and as nothing otherwise |
| StateCodec.AcceptedExactly | jals-build/src/build_script.rs:1262-1440 | which bytes are accepted at all: exactly the canonical writing of a record of this version, scope and script, with its own fingerprint, digests throughout, ordered lists of paths, outputs below the output root, usable names, an accepted plan and no error diagnostic |
| StateCodec.InvertedNeverRecorded | jals-build/src/build_script.rs:1281-1292 | a project tracking two inverted files never has a record read back |
| StateCodec.SiblingNeverRecorded | jals-build/src/build_script.rs:1281-1292 | concretely, one holding `src/A` and `src.txt` with no declared inputs |
| Runs.InvertedNeverHits | jals-build/src/build_script.rs:1857-1879 | in no reachable world, interleaved persists, crashes and damage included, is a project served from the cache while its evaluation tracks two inverted files |
| StateCodec.AcceptedShape | jals-build/src/build_script.rs:1350-1440 | accepted bytes are canonical, list outputs strictly increasing and strictly below the output root, and hold no error diagnostic |
| StateCodec.AcceptedUnique | jals-build/src/build_script.rs:1350-1375 | two accepted byte strings that decode alike are the same |
| Preparation.CheckScriptExactly | jals-build/src/build_script.rs:1798-1855 | the configured text is accepted exactly when it renders the key of a text file of the project outside the artifact root, with every limit positive and environment, path, depth and size within the limits |
| Preparation.RefusedExactly | jals-build/src/build_script.rs:1798-1855 | which error is reported otherwise: the first thing wrong |
| Preparation.LimitsExactly | jals-build/src/build_script.rs:1455-1526 | a decoded state passes the limits exactly when every path, text and count in it does, paths below the output root measured from there, and so does all its text together |
| Preparation.RecoverStep | jals-build/src/build_script.rs:1563-1588 | one recovered output keeps the running total equal to the recovered bytes, within the file and total limits, and the recorded digests |
| Preparation.RecoverBounded | jals-build/src/build_script.rs:1563-1588 | so does the whole loop |
| Preparation.CompleteRecovery | jals-build/src/build_script.rs:1528-1595 | a load that reports every output found has exactly the recorded keys and bytes, with every directive, path and byte total within the current limits |
| Preparation.RecoverOutputs | jals-build/src/build_script.rs:1563-1588 | the accumulating loop computes the specified recovery |
| Preparation.LoadCachedBuildScript | jals-build/src/build_script.rs:1528-1595 | loading computes the specified state, files, match and completeness |
| Publication.ReconcileApplies | jals-build/src/build_script.rs:1951-1991 | the staged list applies to the viewed tree exactly as far as the host's own changes do on the settled tree |
| Publication.ReconcilePerKey | jals-build/src/build_script.rs:1951-1991 | generated keys get generated bytes, claimed keys the host's change, unclaimed unchanged stale keys go, everything else stays; and the transaction is legal exactly when the host's part is |
| Publication.CombinedOnce | jals-build/src/build_script.rs:1951-1991 | no key is changed twice, and each create, replace and remove is legal on the viewed tree |
| Publication.NothingToDo | jals-build/src/build_script.rs:1597-1632 | nothing is staged exactly when every generated file is in place and nothing stale is left |
| Publication.SettledAgain | jals-build/src/build_script.rs:1597-1632 | reconciling a settled tree again stages nothing |
| Publication.ApplyLocal | jals-storage/src/storage.rs:441-509 | changes depend on and affect only the keys they touch |
| Publication.ProjectStorage.CommitChanges | jals-storage/src/storage.rs:401-437 | a commit against a stale revision, with an illegal change, or with a failing write changes nothing; an empty one keeps the revision |
| Publication.GeneratedWrites | jals-build/src/build_script.rs:1604-1613 | the loop over generated files stages one create or replace for each that is missing or different |
| Publication.StaleRemovals | jals-build/src/build_script.rs:1614-1630 | the loop over known outputs removes exactly the unclaimed ones still holding their known bytes |
| Publication.ReconcileOutputChanges | jals-build/src/build_script.rs:1597-1632 | both loops together stage the specified list |
| Publication.PersistPrepared | jals-build/src/build_script.rs:980-1006 | outputs, then the record, then the index, stopping at the first failure |
| Publication.PublishPreparedBuildScript | jals-build/src/build_script.rs:1944-2012 | tree, revision, cache, session and answer after a publish; the answer gives the committed revision, exactly the generated files, everything registered as it was, and one warning more exactly when persisting failed; on an error nothing has changed |
| Publication.PublishedTree | jals-build/src/build_script.rs:1951-2000 | after a publish each path holds what was generated there, what the host put there, nothing where an unchanged file of an earlier run was, or what it held |
| Publication.PublishAnswers | jals-build/src/build_script.rs:1995-2008 | the answer, field by field, and when it warns |
| Publication.ClearBuildScriptOutputs | jals-build/src/build_script.rs:1669-1678 | clearing succeeds exactly when there is nothing to remove or the write succeeds; each file of the session that still holds what was published is then gone, every other file and the cache are as they were, the revision rises exactly when something was removed, and the session is empty |
| Publication.ClearExactly | jals-build/src/build_script.rs:1614-1678 | the same of the specification, which calls the reconciliation of nothing generated |
| Refinement.GenuineDecodes | jals-build/src/build_script.rs:1350-1380 | a record made by an evaluation decodes only for the scope and script it was made for |
| Refinement.HitIsEvaluation | jals-build/src/build_script.rs:1857-1879 | with a genuine index and an honest engine, a hit is what evaluating now gives |
| Refinement.PreparationRefines | jals-build/src/build_script.rs:1798-1907 | preparing answers as evaluation does, errors included, whatever the cache holds |
| Runs.StepKeeps | jals-build/src/build_script.rs:1944-2012 | every prepare, publish, clear, edit and restart, every dependency preparation, every single operation or end of a persist under way, and every damage keeps the index genuine, the recorded outputs committed, and the session what was last published |
| Runs.CacheRefinesEvaluation | jals-build/src/build_script.rs:1798-1907 | in every reachable world, with any number of persists of any projects under way, preparing any project in any scope answers exactly as evaluating it |
| Runs.PublishAlone | jals-build/src/build_script.rs:1944-2012 | a publish followed by the operations of its own persist alone leaves the tree, cache and session the whole publish leaves, however many operations take effect |
| Runs.DependencyAlone | jals-build/src/build_script.rs:980-1006 | so with a dependency: its preparation and the operations of its persist alone leave what the whole persist leaves |
| Deletion.RemovalsAreStale | jals-build/src/build_script.rs:1614-1632 | the files reconciliation removes are exactly the unclaimed stale ones still holding their known bytes |
| Deletion.DeletionSafety | jals-build/src/build_script.rs:1951-2000 | across any run, persists interleaving, a file that disappears, other than by the user's edit or the host's own change, held bytes this project's script generated and a publish committed at that very path, and while the session knows the path, the bytes committed there last |
| Deletion.EditedFileSurvives | jals-build/src/build_script.rs:1614-1630 | across any run, a file whose bytes are not those last published at its path, or never were published there where the session does not know it, survives every step that neither generates it nor claims it |
| Reverted.RevertedFileRemoved | jals-build/src/build_script.rs:480-486 | the second half of that is needed: a run in which, after an unfinished persist and a restart, a file put back to earlier published bytes is removed |
| Rerun.PersistHolds | jals-build/src/build_script.rs:980-1006 | after a persist without error the cache holds every output, the record and the index entry |
| Rerun.PersistsExactly | jals-build/src/build_script.rs:980-1006 | the persist of a new result succeeds exactly when its record is within the limit, the backend performs every operation, and no other bytes are stored where its outputs and record belong |
| Rerun.RecoversExactly | jals-build/src/build_script.rs:1563-1588 | recovery finds everything exactly when everything is within the limits, and then the same files |
| Rerun.HitsExactly | jals-build/src/build_script.rs:1528-1595 | after a persist, the next run hits exactly when the result was restorable and nothing it observes changed, and then answers with it |
| Rerun.ObservationsSurvive | jals-build/src/build_script.rs:1199-1234 | changes outside what a fingerprint looks at leave it as it was |
| Rerun.CompilingKeepsHits | jals-build/src/build_script.rs:1199-1216 | after a persist, whatever compiling changes below `classes-dir`, the next run of a script without declared inputs hits exactly when its result is restorable |
| Rerun.BuildNeverInvalidatesItself | jals-build/src/build_script.rs:1743-1786 | a build whose changes its fingerprint does not look at is followed by a hit exactly when its result is restorable; the second run gives the same output, stages nothing and keeps tree, revision, cache and session |
| CrashSafety.RecordBacked | jals-build/src/build_script.rs:980-1006 | once everything before the index entry is published, the record and all its outputs are available |
| CrashSafety.NextKeeps | jals-build/src/build_script.rs:980-1006 | one more operation of any persist in flight, or a crash, keeps every indexed state backed |
| CrashSafety.EveryIndexedStateIsBacked | jals-build/src/build_script.rs:980-1006 | however persists interleave and wherever they stop, every indexed state has its bytes and all its outputs |
| CrashSafety.PersistFollows | jals-build/src/build_script.rs:980-1006 | the actions are real: after a preparation, however many operations of its persist give what that much of the persist gives, and none takes effect after a crash |
| Isolation.OutcomeVisible | jals-build/src/build_script.rs:1537-1571 | a preparation answers from its own scope's entries alone |
| Isolation.ScopesAreIsolated | jals-build/src/build_script.rs:645-668 | however preparations and the single operations and ends of persists interleave over one cache, each scope observes, preparation by preparation and operation by operation, what it would observe alone |
| Isolation.SeenOfBegin | jals-build/src/build_script.rs:1798-1907 | what a scope observes of a preparation is its answer, and its persist begins |
| Isolation.SeenOfAdvance | jals-build/src/build_script.rs:980-1006 | what a scope observes of an operation is whether it failed, and it takes effect unless it did |
| Positions.LineColumn | jals-build/src/jals_backend.rs:140-157 | the character loop computes the line and the column counted in characters, and column one inside a character |
| Positions.ByteRange | jals-build/src/build_script.rs:691-725 | the line loop finds the byte range of a position, or none |
| Positions.ColumnRange | jals-build/src/build_script.rs:708-724 | one whole character, an empty range at the line's end, or none past it |
| Positions.OffsetRoundTrip | jals-build/src/build_script.rs:691-725 | from any character boundary to its position and back: a range starting there and covering one whole character or nothing, except at the end no line holds |
| Positions.OutsideBoundaries | jals-build/src/jals_backend.rs:140-157 | an offset inside a character reports the first column, one past the end the end |
| Positions.PositionRoundTrip | jals-build/src/jals_backend.rs:140-157 | from any position that resolves to its range and back to the position |
| ArgumentFiles.ArgumentFile | jals-build/src/invocation.rs:137-153 | no body exactly when some argument holds a line terminator, otherwise every argument quoted on its own line |
| ArgumentFiles.SurvivesExactly | jals-build/src/invocation.rs:137-153 | tokenizing the body gives the arguments back exactly when none holds a line terminator |
| ArgumentFiles.SpilledExactly | jals-build/src/invocation.rs:113-138 | spilled is exactly a command line of 32000 bytes or more, its words a space apart, with no line terminator in an argument |
| ArgumentFiles.Host.SpillArguments | jals-build/src/native.rs:303-319 | when and what is spilled, and where it is written; program, directory and environment kept, an unwritable file the only error, and the arguments the tool ends up with where it finds the file |
| CommandLines.ResolvedOnce | jals-build/src/invocation.rs:67-79 | a planned path leads the tool, running in the project root, where the manifest path leads from that root, so a relative root is applied once |
| CommandLines.BuildSays | jals-build/src/invocation.rs:171-256 | a planned compile gives each option the value its request has for it and no other option, before the manifest's flags and the script's, before the project's sources and its dependencies' |
| CommandLines.RunSays | jals-build/src/invocation.rs:265-309 | a planned run: module path, flags, a class path that reads back as the classes directory, the manifest's entries and the dependencies, the main class, the program's arguments |
| CommandLines.SpilledMeaning | jals-build/src/native.rs:310-330 | run in its working directory, a tool takes the spilled reference for exactly the spilled arguments when it reads argument files (a `java` only since JDK 9) and finds this one there, and for what it meant before otherwise |
| ArgumentFiles.FindableExactly | jals-build/src/native.rs:310-328 | without `..` and a leading `@`, it finds it exactly when the working directory is absolute or is the one jals runs in |
| ArgumentFiles.ArgumentFilePlaces | jals-build/src/native.rs:310-313 | the file is `target/jals/build/javac-args` or `java-args` below the working directory, wherever that is |
| CommandLines.RelativeRootLoses | jals-build/src/native.rs:310-328 | with `project` as working directory the file is written in `project/target` and looked for in `project/project/target` |
| CommandLines.SpillKeepsMeaning | jals-build/src/native.rs:303-330 | any invocation spilled where the tool reads and finds the file keeps its meaning exactly when none of the arguments the tool looks into is replaced and, for `javac`, none is a `-J` option, provided none expands to another; a `-J` option always loses it |
| CommandLines.ProgramArgumentsVerbatim | jals-build/src/invocation.rs:265-309 | a planned run gives the program its arguments as they are, references or not |
| CommandLines.PlainRunKept | jals-build/src/invocation.rs:265-309 | a planned run that is spilled keeps its meaning whatever its program arguments when nothing before them starts with `@` |
| CommandLines.FlagsFileLost | jals-build/src/invocation.rs:171-256 | the plan of compiling a thousand distinct sources with `@opts` among its flags, which really is spilled, keeps its meaning only if the file lists nothing but that reference |
| CommandLines.LauncherOptionLost | jals-build/src/invocation.rs:171-256 | with `-J-Xmx4g` among its flags, spelled out the launcher takes it, and spilled the compiler is given it |
| CommandLines.OwnReferencesKept | jals-build/src/invocation.rs:155-161 | the same plan with two references as flags, of which one expands to both, has both replaced and yet keeps its meaning when spilled, so the proviso is needed |
| RuntimeTable.DecimalRoundTrip | examples/minecraft_client_test/build.java:115-115 | a rendered size is parsed back exactly when a `long` holds it, from -9223372036854775808 to 9223372036854775807 |
| RuntimeTable.Fields | examples/minecraft_client_test/build.java:122-136 | the field loop yields the first three tab-separated pieces, or fails with fewer |
| RuntimeTable.NextLine | examples/minecraft_client_test/build.java:95-102 | the next line without its ending, LF or CRLF |
| RuntimeTable.AddRuntimeLibraries | examples/minecraft_client_test/build.java:91-119 | the scan ends and computes the specified reading of the table |
| RuntimeTable.TableRoundTrip | examples/minecraft_client_test/build.java:91-136 | reading a rendered table gives exactly the first selected release's rows, in order, exactly when each has a readable path and size |
| RuntimeTable.TableIgnoresReturns | examples/minecraft_client_test/build.java:95-102 | every line ending as CRLF reads the same |
| RuntimeGenerator.AdmitsLinux | examples/scripts/gen-client-runtime.py:181-200 | the verdict is the last matching rule's, no match denies, and no rules admit; a rule matches without `features`, for `linux` or any system, for `x86_64`, `x64` or any architecture |
| RuntimeGenerator.ArchitectureDecides | examples/scripts/gen-client-runtime.py:163-178 | a coordinate of four parts is admitted unless its last dash-separated word is one of the nine foreign architectures; shorter ones always |
| RuntimeGenerator.JudgedExactly | examples/scripts/gen-client-runtime.py:202-247 | which downloads become a row, and which row: a path below the library host spellable in one field, a digest that is the lower-case hex of some twenty bytes, and a whole size |
| RuntimeGenerator.Sha1Exactly | examples/scripts/gen-client-runtime.py:105-107 | a digest is accepted exactly when it is the lower-case hex of some twenty bytes |
| RuntimeGenerator.RefusedExactly | examples/scripts/gen-client-runtime.py:218-239 | which gap is reported otherwise: the first thing wrong |
| RuntimeGenerator.ArchReplaced | examples/scripts/gen-client-runtime.py:276-276 | each architecture marker of a native classifier is replaced, and nothing else |
| RuntimeGenerator.Runtime.Admit | examples/scripts/gen-client-runtime.py:202-247 | one download adds one row or one gap, or repeats a known row; the remembered digests stay those of the admitted rows |
| RuntimeGenerator.Runtime.Remember | examples/scripts/gen-client-runtime.py:240-247 | a known path is dropped, or is a gap under another digest |
| RuntimeGenerator.Runtime.AdmitLibrary | examples/scripts/gen-client-runtime.py:266-286 | a kept library offers its artifact and then its native, with a gap for a missing classifier or for neither |
| RuntimeGenerator.Runtime.Scan | examples/scripts/gen-client-runtime.py:249-287 | scanning visits the kept libraries in metadata order |
| RuntimeGenerator.AdmittedAreFirst | examples/scripts/gen-client-runtime.py:240-247 | the admitted rows are the first occurrences of their paths, in order, whatever the gaps |
| RuntimeGenerator.GapFreeExactly | examples/scripts/gen-client-runtime.py:202-287 | no gaps exactly when every offer can be read and no path has two digests |
| RuntimeGenerator.ScanSound | examples/scripts/gen-client-runtime.py:249-287 | every admitted row is a download some kept library offers, and no path comes twice |
| RuntimeGenerator.ScanComplete | examples/scripts/gen-client-runtime.py:249-287 | without gaps, everything a kept library offers is admitted under its own digest |
| RuntimeGenerator.TableJarExactly | examples/scripts/gen-client-runtime.py:289-295 | an admitted row is written under its path, with the text of its digest and its size |
| RuntimeGenerator.Destination.Run | examples/scripts/gen-client-runtime.py:345-358 | the table is written exactly when every release is gap-free, and is left untouched otherwise |
| RuntimeGenerator.GeneratedTableReads | examples/scripts/gen-client-runtime.py:308-322 | a written table reads back as the selected release's admitted rows, exactly when each has a readable path and size |
| RuntimeGenerator.MarkedPathLost | examples/scripts/gen-client-runtime.py:202-247 | a release whose one library is at `#a.jar` has no gap, its table is written, and reading it does not give the row |
| ClassFiles.ItemsRead | jals-classfile/src/bytes.rs:98-110 | a counted list of items that fit reads back |
| ClassFiles.ItemsExact | jals-classfile/src/bytes.rs:98-110 | a list that was read fits and rewrites to the bytes it was read from |
| ClassFiles.PoolReads | jals-classfile/src/constant_pool.rs:188-213 | a well-formed pool, sentinel and gaps included, reads back |
| ClassFiles.PoolExact | jals-classfile/src/constant_pool.rs:215-222 | a pool that was read is well-formed and rewrites to the bytes after its count |
| ClassFiles.PoolCount | jals-classfile/src/constant_pool.rs:188-213 | its size is the declared count, or one more for a wide entry in the last place, or one for a count of zero |
| ClassFiles.Layout | jals-classfile/src/class_file.rs:116-130 | magic, minor, major, pool, the three words and the four lists are at the specified places |
| ClassFiles.WriteReadExactly | jals-classfile/src/class_file.rs:79-130 | reading what was written gives the same class exactly when its pool is well-formed and every count fits 16 bits |
| ClassFiles.ReadWriteExactly | jals-classfile/src/class_file.rs:79-130 | writing what was read gives the same bytes exactly when the declared pool count is the number of slots, and always reads back the same |
| ClassFiles.RewrittenCount | jals-classfile/src/constant_pool.rs:188-222 | the two ways it is not: none declared, or a last wide entry one slot short |
| ClassFiles.EmptyPoolNotExact | jals-classfile/src/constant_pool.rs:188-222 | a file declaring no pool is read and not written back the same |
| ClassFiles.WideTailNotExact | jals-classfile/src/constant_pool.rs:188-222 | nor is one whose last wide entry is declared one slot short |
| ClassFiles.TrailingBytesRefused | jals-classfile/src/bytes.rs:123-130 | anything after a class file is refused |
| ClassFiles.OtherMagicRefused | jals-classfile/src/class_file.rs:79-84 | so is any other first four bytes |
| ClassFiles.Reader.U16 | jals-classfile/src/bytes.rs:63-67 | two bytes are consumed and read most significant first, or the input has ended and nothing is consumed |
| ClassFiles.Reader.List | jals-classfile/src/bytes.rs:98-110 | the reading loop computes the specified list |
| ClassFiles.Reader.Pool | jals-classfile/src/constant_pool.rs:188-213 | the slot loop computes the specified pool |
| ClassFiles.ReadFrom | jals-classfile/src/class_file.rs:79-112 | reading field by field computes the specified class or error |
| ClassFiles.Writer.List | jals-classfile/src/bytes.rs:179-185 | the writing loop appends the count and every item |
| ClassFiles.Writer.Pool | jals-classfile/src/constant_pool.rs:215-222 | the slot loop appends the count and every entry |
| ClassFiles.WriteTo | jals-classfile/src/class_file.rs:116-130 | writing part by part computes the specified bytes |
| BuiltinCompile.DestinationLayout | jals-build/src/builtin.rs:87-100 | a source goes to its path below the deepest containing source root, else below the project root, else to its bare name |
| BuiltinCompile.SameRootApart | jals-build/src/builtin.rs:90-100 | two sources under the same deepest root share a destination only if they are one |
| BuiltinCompile.PlanCopies | jals-build/src/builtin.rs:74-85 | one copy for each source, the project's own first, each to its own destination |
| BuiltinCompile.StagedApplies | jals-build/src/builtin.rs:153-168 | every staged create and replace is legal where it stands |
| BuiltinCompile.CompileIsSimultaneous | jals-build/src/builtin.rs:133-172 | each destination ends up with what the last source planned to it held before, in the project tree if it is a file there whatever the disk holds, else on disk; every other file is untouched; and exactly which inputs make a compile fail |
| BuiltinCompile.CompileFailsFirst | jals-build/src/builtin.rs:102-152 | a compile fails with the first copy that cannot be made: as unaddressable by its destination, or as unreadable when its source is in neither the tree nor on disk |
| BuiltinCompile.GatherCopies | jals-build/src/builtin.rs:137-152 | everything is read from the state before the compile, stopping at the first failure |
| BuiltinCompile.StageCopies | jals-build/src/builtin.rs:153-168 | the create-or-replace choice for each copy |
| BuiltinCompile.CompileIn | jals-build/src/builtin.rs:133-172 | the compile commits the specified tree, and any failure changes nothing |
| BuiltinCompile.BuiltinToolchain.Compile | jals-build/src/builtin.rs:176-190 | the storage is put back on every exit, and a compile while it is checked out is refused and changes nothing |
| FileIds.NumberTree | jals-build/src/jals_backend.rs:205-218 | every source is numbered by its place, and exactly those that are not text are reported |
| FileIds.NumberAll | jals-build/src/jals_backend.rs:205-273 | tree, native and library sources are numbered consecutively across the three lists, and when a compile is refused before that |
| FileIds.LinkAll | jals-build/src/jals_backend.rs:232-261 | the linked libraries in order, refused with exactly the modules that are none and the libraries whose name a module has |
| FileIds.NumberLinked | jals-build/src/jals_backend.rs:266-273 | library sources continue the numbering |
| FileIds.WasmSource | jals-build/src/jals_backend.rs:106-134 | the countdown finds the file at that place of the three lists and never counts below zero |
| FileIds.IdsResolve | jals-build/src/jals_backend.rs:205-273 | the id given to the k-th source is k, up to 4294967295, which all later ones share, and resolves to it |
| FileIds.FailurePointsBack | jals-build/src/jals_backend.rs:88-102 | the reported position's byte range starts where the failure was |

## Left out

- The script engine, the task-plan format, feature resolution, the parser, the type index, wasm lowering, the formatter and the linter.
- Real JSON and SHA-256, file-system adapters, processes, JDK discovery, HTTP fetches and the catalog scraping.
- Directories: a tree is a map from files to bytes, so a file where a directory is needed, and a directory where a file is read, do not arise.
- Overlays: the viewed tree is the committed one.
- The engine's own byte counters while a script runs (`total_output_bytes`, `host_directive_bytes`): the model checks the same totals when a record is loaded.
- Argument files: paths have neither symbolic links nor Windows separators, an empty working directory is the one jals runs in, a reference to no file is left as it is where a tool would report it, class-path wildcards are not expanded, and what `JDK_JAVAC_OPTIONS` adds, the same either way, is not shown.
- The texts of errors and messages, progress reporting, and the display of commands.
- Revisions, file counts and positions are unbounded numbers; the offsets inside end-of-input errors of the class-file reader are not kept.
- RuntimeTable.AddRuntimeLibraries: yields the rows rather than scheduling their downloads, so the checks on a fetched URL, digest and byte count are not modelled; text is code points, not UTF-16 units, which the scan cannot tell apart; only ASCII digits make a byte count.
- RuntimeTable.TableRoundTrip: says nothing about a selected feature whose name holds a tab, which no release name can be.
- RuntimeGenerator.Destination.Run: the fixed comment lines are a parameter, and metadata whose containers have the wrong JSON type, where the script stops, is not modelled; a JSON `null` operating-system name or architecture is read as an absent one.
- ClassFiles.PoolCount: the counter stepping past 65535, by a wide entry at index 65534 of a pool of 65535, ends the read with an error of the model; a checked build panics there, and a release build wraps to zero and reads on.
- ClassFiles.Reader.Pool: the same error stands for the panic and for the wrapped read.
- ClassFiles.ReadFrom: reads from memory, so a failing source does not arise.
- BuiltinCompile.CompileIn: host paths are lists of components, so `.` and `..` components and relative sources do not arise; the native backend's own storage is not modelled.
- FileIds.NumberAll: numbering only; what the compiler then does with the numbered files is not part of this model.
- The other parts of `invocation.rs` and `native.rs`, the `javac` configuration digest, clean targets, project scaffolding and backend outcomes: nothing in them would be harder than what is here.
