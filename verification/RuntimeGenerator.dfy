// The generator of the runtime library table: which of a release's libraries it admits, what it calls
// a gap, and when it writes.
module RuntimeGenerator {
  import opened Text
  import opened RuntimeTable

  const LIBRARIES: string := "https://libraries.minecraft.net/"
  const ARCHITECTURES: set<string> := {
    "aarch_64", "aarch64", "amd64", "arm32", "arm64", "loongarch64", "ppc64le", "riscv64", "s390x",
    "x64", "x86", "x86_64"
  }
  const X86_64: set<string> := {"amd64", "x64", "x86_64"}
  const HEX_DIGITS: string := "0123456789abcdef"

  // ---- Release metadata ----

  // A JSON value where the generator checks its shape; an absent key reads as `Null`.
  datatype Json = Null | Str(value: string) | Number(number: int) | Flag(flag: bool) | Other

  // `features` is whether the rule has such a key.
  datatype Rule = Rule(features: bool, osName: Option<string>, osArch: Option<string>, action: string)

  datatype Download = Download(url: Json, sha1: Json, size: Json)

  datatype Library = Library(
    name: string, rules: Option<seq<Rule>>, artifact: Option<Download>, native: Option<string>,
    classifiers: map<string, Download>)

  datatype Release = Release(name: string, libraries: seq<Library>)

  datatype Row = Row(name: string, path: string, sha1: Json, size: int)

  datatype Gap =
    | NoUrl(name: string)
    | Elsewhere(name: string, url: string)
    | Unspellable(name: string, path: string)
    | NoDigest(name: string, path: string)
    | NoSize(name: string, path: string)
    | Conflict(name: string, path: string)
    | NoClassifier(name: string, classifier: string)
    | NoDownload(name: string)

  // ---- Operating system rules ----

  predicate Matches(rule: Rule) {
    && !rule.features
    && (rule.osName.None? || rule.osName.value == "linux")
    && (rule.osArch.None? || rule.osArch.value == "x86_64" || rule.osArch.value == "x64")
  }

  // Rule `k` is the last of the first `n` that matches.
  predicate LastMatch(rules: seq<Rule>, n: nat, k: nat)
    requires n <= |rules|
  {
    k < n && Matches(rules[k]) && forall j :: k < j < n ==> !Matches(rules[j])
  }

  predicate Allowed(rules: seq<Rule>, n: nat)
    requires n <= |rules|
  {
    exists k :: 0 <= k < n && LastMatch(rules, n, k) && rules[k].action == "allow"
  }

  predicate RulesAdmit(rules: Option<seq<Rule>>) {
    rules.None? || rules.value == [] || Allowed(rules.value, |rules.value|)
  }

  lemma AllowedStep(rules: seq<Rule>, n: nat)
    requires n < |rules|
    ensures Allowed(rules, n + 1) <==>
      if Matches(rules[n]) then rules[n].action == "allow" else Allowed(rules, n)
  {
    if Matches(rules[n]) {
      assert LastMatch(rules, n + 1, n);
    } else {
      assert forall k :: 0 <= k < n ==> LastMatch(rules, n + 1, k) == LastMatch(rules, n, k);
    }
  }

  ghost predicate Applies(rule: Rule) {
    && !rule.features
    && (rule.osName == None || rule.osName == Some("linux"))
    && (rule.osArch == None || rule.osArch == Some("x86_64") || rule.osArch == Some("x64"))
  }

  lemma AppliesExactly(rule: Rule)
    ensures Applies(rule) <==> Matches(rule)
  {
  }

  ghost predicate Decides(rules: seq<Rule>, k: nat) {
    k < |rules| && Applies(rules[k]) && forall j :: k < j < |rules| ==> !Applies(rules[j])
  }

  // The last rule that applies decides; where none does, the library is not admitted.
  lemma RulesAdmitExactly(rules: seq<Rule>)
    ensures RulesAdmit(None) && RulesAdmit(Some([]))
    ensures rules != [] ==>
      (RulesAdmit(Some(rules)) <==> exists k: nat :: Decides(rules, k) && rules[k].action == "allow")
  {
    forall k | 0 <= k < |rules| ensures Applies(rules[k]) == Matches(rules[k]) {
      AppliesExactly(rules[k]);
    }
    assert forall k: nat :: k < |rules| ==> Decides(rules, k) == LastMatch(rules, |rules|, k);
  }

  method AdmitsLinux(rules: Option<seq<Rule>>) returns (verdict: bool)
    ensures verdict <==> RulesAdmit(rules)
    ensures verdict <==>
      || rules == None || rules == Some([])
      || exists k: nat :: Decides(rules.value, k) && rules.value[k].action == "allow"
  {
    if rules.None? || rules.value == [] {
      return true;
    }
    RulesAdmitExactly(rules.value);
    verdict := false;
    for i := 0 to |rules.value|
      invariant verdict <==> Allowed(rules.value, i)
    {
      AllowedStep(rules.value, i);
      var rule := rules.value[i];
      if rule.features {
        continue;
      }
      if rule.osName.Some? && rule.osName.value != "linux" {
        continue;
      }
      if rule.osArch.Some? && rule.osArch.value !in {"x86_64", "x64"} {
        continue;
      }
      verdict := rule.action == "allow";
    }
  }

  // ---- Architectures ----

  // `rsplit("-", 1)[-1]`.
  function AfterLastDash(s: string): string {
    if '-' in s then
      if s[|s| - 1] == '-' then "" else AfterLastDash(s[..|s| - 1]) + [s[|s| - 1]]
    else s
  }

  predicate AdmitsX86_64(name: string) {
    var parts := Split(name, ':');
    |parts| < 4
    || var architecture := AfterLastDash(parts[3]);
       architecture !in ARCHITECTURES || architecture in X86_64
  }

  lemma {:induction false} AfterDash(before: string, word: string)
    requires '-' !in word
    ensures AfterLastDash(before + "-" + word) == word
    decreases |word|
  {
    var s := before + "-" + word;
    assert s[|before|] == '-';
    if word != "" {
      var last := |word| - 1;
      AfterDash(before, word[..last]);
      assert s[..|s| - 1] == before + "-" + word[..last];
      assert word[last] in word && word == word[..last] + [word[last]];
    }
  }

  lemma ForeignExactly(word: string)
    ensures word in ARCHITECTURES && word !in X86_64 <==>
      word in {"aarch_64", "aarch64", "arm32", "arm64", "loongarch64", "ppc64le", "riscv64", "s390x", "x86"}
  {
  }

  // A coordinate's fourth part decides, by its last dash-separated word; shorter coordinates pass.
  lemma ArchitectureDecides(parts: seq<string>, before: string, word: string)
    requires |parts| >= 4 && (forall part <- parts :: ':' !in part) && '-' !in word
    requires parts[3] == word || parts[3] == before + "-" + word
    ensures AdmitsX86_64(Join(parts, ':')) <==>
      word !in {"aarch_64", "aarch64", "arm32", "arm64", "loongarch64", "ppc64le", "riscv64", "s390x", "x86"}
    ensures AdmitsX86_64(Join(parts[..3], ':'))
  {
    SplitJoin(parts, ':');
    SplitJoin(parts[..3], ':');
    ForeignExactly(word);
    if parts[3] == before + "-" + word {
      AfterDash(before, word);
    }
  }

  // ---- One download ----

  predicate IsSha1(s: string) {
    |s| == 40 && forall i :: 0 <= i < 40 ==> '0' <= s[i] <= '9' || 'a' <= s[i] <= 'f'
  }

  // Python's `str` of a digest, where it can match the digest pattern at all: a number of forty
  // digits does.
  function DigestText(sha1: Json): Option<string> {
    var text := if sha1.Str? then sha1.value else if sha1.Number? then Decimal(sha1.number) else "";
    if IsSha1(text) then Some(text) else None
  }

  // Lower-case hex, two characters a byte.
  function LowerHex(bytes: Bytes): (s: string)
    ensures |s| == 2 * |bytes|
  {
    if bytes == [] then ""
    else [HEX_DIGITS[bytes[0] / 16], HEX_DIGITS[bytes[0] % 16]] + LowerHex(bytes[1..])
  }

  ghost predicate HexDigest(s: string) {
    exists bytes: Bytes :: |bytes| == 20 && LowerHex(bytes) == s
  }

  lemma {:induction false} HexWritten(bytes: Bytes)
    ensures forall i :: 0 <= i < |LowerHex(bytes)| ==>
      '0' <= LowerHex(bytes)[i] <= '9' || 'a' <= LowerHex(bytes)[i] <= 'f'
  {
    if bytes != [] {
      HexWritten(bytes[1..]);
    }
  }

  lemma HexDigit(c: char) returns (d: nat)
    requires '0' <= c <= '9' || 'a' <= c <= 'f'
    ensures d < 16 && HEX_DIGITS[d] == c
  {
    d := if c <= '9' then c as int - '0' as int else 10 + (c as int - 'a' as int);
  }

  lemma {:induction false} HexRead(s: string, n: nat) returns (bytes: Bytes)
    requires |s| == 2 * n
    requires forall i :: 0 <= i < |s| ==> '0' <= s[i] <= '9' || 'a' <= s[i] <= 'f'
    ensures |bytes| == n && LowerHex(bytes) == s
    decreases n
  {
    bytes := [];
    if n > 0 {
      var rest := HexRead(s[2..], n - 1);
      var high := HexDigit(s[0]);
      var low := HexDigit(s[1]);
      bytes := [16 * high + low] + rest;
      assert bytes[1..] == rest && bytes[0] / 16 == high && bytes[0] % 16 == low;
      assert s == [s[0], s[1]] + s[2..];
    }
  }

  // A digest is accepted exactly when it writes twenty bytes.
  lemma Sha1Exactly(s: string)
    ensures IsSha1(s) <==> HexDigest(s)
  {
    if IsSha1(s) {
      var bytes := HexRead(s, 20);
    }
    if HexDigest(s) {
      var bytes: Bytes :| |bytes| == 20 && LowerHex(bytes) == s;
      HexWritten(bytes);
    }
  }

  ghost predicate Digested(sha1: Json, text: string) {
    HexDigest(text) && (sha1 == Str(text) || (sha1.Number? && text == Decimal(sha1.number)))
  }

  lemma DigestExactly(sha1: Json, text: string)
    ensures DigestText(sha1) == Some(text) <==> Digested(sha1, text)
  {
    Sha1Exactly(text);
  }

  lemma DigestStated(sha1: Json)
    ensures DigestText(sha1).Some? <==> exists text :: Digested(sha1, text)
  {
    if DigestText(sha1).Some? {
      DigestExactly(sha1, DigestText(sha1).value);
    }
    if text :| Digested(sha1, text) {
      DigestExactly(sha1, text);
    }
  }

  function Judge(name: string, download: Download): Result<Row, Gap> {
    if !download.url.Str? then Err(NoUrl(name))
    else
      var url := download.url.value;
      if !(LIBRARIES <= url) then Err(Elsewhere(name, url))
      else
        var path := url[|LIBRARIES|..];
        if '\t' in path || '\n' in path || '\r' in path then Err(Unspellable(name, path))
        else if DigestText(download.sha1).None? then Err(NoDigest(name, path))
        else if !download.size.Number? then Err(NoSize(name, path))
        else Ok(Row(name, path, download.sha1, download.size.number))
  }

  // The download of a path below the library host.
  ghost predicate PublishedAs(download: Download, path: string) {
    download.url == Str("https://libraries.minecraft.net/" + path)
  }

  ghost predicate PlainPath(path: string) {
    '\t' !in path && '\n' !in path && '\r' !in path
  }

  // Exactly which downloads become a row, and which row: the path below the library host, spellable
  // in one field, with the digest and size the metadata states.
  lemma JudgedExactly(name: string, download: Download, row: Row)
    ensures Judge(name, download) == Ok(row) <==>
      && row.name == name && PublishedAs(download, row.path) && PlainPath(row.path)
      && row.sha1 == download.sha1 && (exists text :: Digested(row.sha1, text))
      && download.size == Number(row.size)
  {
    BelowHost(download);
    DigestStated(download.sha1);
    assert (LIBRARIES + row.path)[|LIBRARIES|..] == row.path;
  }

  lemma BelowHost(download: Download)
    ensures download.url.Str? && LIBRARIES <= download.url.value ==>
      PublishedAs(download, download.url.value[|LIBRARIES|..])
  {
    if download.url.Str? && LIBRARIES <= download.url.value {
      var url := download.url.value;
      assert url == LIBRARIES + url[|LIBRARIES|..];
    }
  }

  // The gap a download that makes no row is reported as: the first thing wrong with it.
  ghost predicate Refused(name: string, download: Download, gap: Gap) {
    match gap
    case NoUrl(about) => about == name && !download.url.Str?
    case Elsewhere(about, url) =>
      about == name && download.url == Str(url) && !("https://libraries.minecraft.net/" <= url)
    case Unspellable(about, path) => about == name && PublishedAs(download, path) && !PlainPath(path)
    case NoDigest(about, path) =>
      about == name && PublishedAs(download, path) && PlainPath(path) && !exists text :: Digested(download.sha1, text)
    case NoSize(about, path) =>
      && about == name && PublishedAs(download, path) && PlainPath(path) && !download.size.Number?
      && exists text :: Digested(download.sha1, text)
    case _ => false
  }

  lemma RefusedExactly(name: string, download: Download, gap: Gap)
    ensures Judge(name, download) == Err(gap) <==> Refused(name, download, gap)
  {
    BelowHost(download);
    DigestStated(download.sha1);
    if gap.Unspellable? || gap.NoDigest? || gap.NoSize? {
      assert (LIBRARIES + gap.path)[|LIBRARIES|..] == gap.path;
    }
  }

  // ---- What a library offers ----

  // A download to judge, or a gap already.
  datatype Entry = Take(name: string, download: Download) | Hole(gap: Gap)

  function ReplaceArch(s: string): string {
    if s == "" then ""
    else if "${arch}" <= s then "64" + ReplaceArch(s[7..])
    else [s[0]] + ReplaceArch(s[1..])
  }

  // Each marker becomes the architecture's width, left to right.
  lemma {:induction false} ArchReplaced(before: string, after: string)
    requires '$' !in before
    ensures ReplaceArch(before + "${arch}" + after) == before + "64" + ReplaceArch(after)
    ensures ReplaceArch(before) == before
    decreases |before|
  {
    var s := before + "${arch}" + after;
    if before == "" {
      assert s == "${arch}" + after && s[7..] == after;
    } else {
      assert s[0] == before[0] && s[1..] == before[1..] + "${arch}" + after;
      assert s[0] != '$' && !("${arch}" <= s) && !("${arch}" <= before);
      ArchReplaced(before[1..], after);
    }
  }

  predicate Kept(library: Library) {
    RulesAdmit(library.rules) && AdmitsX86_64(library.name)
  }

  function ArtifactEntries(library: Library): seq<Entry> {
    if library.artifact.Some? then [Take(library.name, library.artifact.value)] else []
  }

  function NativeEntries(library: Library): seq<Entry> {
    if library.native.Some? then
      var classifier := ReplaceArch(library.native.value);
      if classifier in library.classifiers then
        [Take(library.name + ":" + classifier, library.classifiers[classifier])]
      else [Hole(NoClassifier(library.name, classifier))]
    else if library.artifact.None? then [Hole(NoDownload(library.name))]
    else []
  }

  function Offers(library: Library): seq<Entry> {
    if Kept(library) then ArtifactEntries(library) + NativeEntries(library) else []
  }

  // Every element's list, in order.
  function Flat<S, T>(xs: seq<S>, f: S -> seq<T>): seq<T>
    decreases |xs|
  {
    if xs == [] then []
    else
      var last := |xs| - 1;
      Flat(xs[..last], f) + f(xs[last])
  }

  lemma {:induction false} FlatConcat<S, T>(a: seq<S>, b: seq<S>, f: S -> seq<T>)
    ensures Flat(a + b, f) == Flat(a, f) + Flat(b, f)
    decreases |b|
  {
    if b == [] {
      assert a + b == a;
    } else {
      var last := |b| - 1;
      FlatConcat(a, b[..last], f);
      assert (a + b)[..|a + b| - 1] == a + b[..last];
    }
  }

  lemma FlatOne<S, T>(x: S, f: S -> seq<T>)
    ensures Flat([x], f) == f(x)
  {
    assert [x][..0] == [];
    assert [] + f(x) == f(x);
  }

  lemma {:induction false} FlatMember<S, T>(xs: seq<S>, f: S -> seq<T>, y: T)
    ensures y in Flat(xs, f) <==> exists i :: 0 <= i < |xs| && y in f(xs[i])
    decreases |xs|
  {
    if xs != [] {
      var last := |xs| - 1;
      FlatMember(xs[..last], f, y);
      assert forall i :: 0 <= i < last ==> xs[..last][i] == xs[i];
    }
  }

  // Every kept library's entries, in metadata order.
  function Entries(libraries: seq<Library>): seq<Entry> {
    Flat(libraries, Offers)
  }

  // ---- The scan ----

  datatype Outcome = Outcome(admitted: seq<Row>, gaps: seq<Gap>)

  predicate Listed(rows: seq<Row>, path: string) {
    exists row <- rows :: row.path == path
  }

  predicate Contradicted(rows: seq<Row>, path: string, sha1: Json) {
    exists row <- rows :: row.path == path && row.sha1 != sha1
  }

  function AdmitEntry(scan: Outcome, entry: Entry): Outcome {
    match entry
    case Hole(gap) => scan.(gaps := scan.gaps + [gap])
    case Take(name, download) =>
      match Judge(name, download)
      case Err(gap) => scan.(gaps := scan.gaps + [gap])
      case Ok(row) =>
        if Contradicted(scan.admitted, row.path, row.sha1) then scan.(gaps := scan.gaps + [Conflict(name, row.path)])
        else if Listed(scan.admitted, row.path) then scan
        else scan.(admitted := scan.admitted + [row])
  }

  // What a scan reports: the gap already found, the first thing wrong with a download, or a path that
  // an earlier row has under another digest.
  lemma GapsReported(scan: Outcome, entry: Entry, gap: Gap, row: Row)
    ensures entry == Hole(gap) ==> AdmitEntry(scan, entry) == Outcome(scan.admitted, scan.gaps + [gap])
    ensures entry.Take? && Refused(entry.name, entry.download, gap) ==>
      AdmitEntry(scan, entry) == Outcome(scan.admitted, scan.gaps + [gap])
    ensures forall other <- scan.admitted ::
      row in RowOf(entry) && other.path == row.path && other.sha1 != row.sha1 ==>
      AdmitEntry(scan, entry) == Outcome(scan.admitted, scan.gaps + [Conflict(row.name, row.path)])
  {
    if entry.Take? {
      RefusedExactly(entry.name, entry.download, gap);
      JudgedExactly(entry.name, entry.download, row);
    }
  }

  function AdmitAll(scan: Outcome, entries: seq<Entry>): Outcome
    decreases |entries|
  {
    if entries == [] then scan
    else
      var last := |entries| - 1;
      AdmitEntry(AdmitAll(scan, entries[..last]), entries[last])
  }

  function ScanOf(libraries: seq<Library>): Outcome {
    AdmitAll(Outcome([], []), Entries(libraries))
  }

  lemma {:induction false} AdmitAllConcat(scan: Outcome, a: seq<Entry>, b: seq<Entry>)
    ensures AdmitAll(scan, a + b) == AdmitAll(AdmitAll(scan, a), b)
    decreases |b|
  {
    if b == [] {
      assert a + b == a;
    } else {
      var last := |b| - 1;
      AdmitAllConcat(scan, a, b[..last]);
      assert (a + b)[..|a + b| - 1] == a + b[..last];
    }
  }

  class Runtime {
    var seen: map<string, Json>
    var admitted: seq<Row>
    var gaps: seq<Gap>

    // The digest remembered for each path is the admitted row's.
    ghost predicate Valid()
      reads this
    {
      && (forall row <- admitted :: row.path in seen && seen[row.path] == row.sha1)
      && (forall path <- seen :: Listed(admitted, path))
    }

    ghost function Value(): Outcome
      reads this
    {
      Outcome(admitted, gaps)
    }

    constructor ()
      ensures Valid() && Value() == Outcome([], [])
    {
      seen, admitted, gaps := map[], [], [];
    }

    method Admit(name: string, download: Download)
      requires Valid()
      modifies this
      ensures Valid() && Value() == AdmitEntry(old(Value()), Take(name, download))
    {
      if !download.url.Str? {
        gaps := gaps + [NoUrl(name)];
        return;
      }
      var url := download.url.value;
      if !(LIBRARIES <= url) {
        gaps := gaps + [Elsewhere(name, url)];
        return;
      }
      var path := url[|LIBRARIES|..];
      if '\t' in path || '\n' in path || '\r' in path {
        gaps := gaps + [Unspellable(name, path)];
        return;
      }
      var sha1 := download.sha1;
      if DigestText(sha1).None? {
        gaps := gaps + [NoDigest(name, path)];
        return;
      }
      if !download.size.Number? {
        gaps := gaps + [NoSize(name, path)];
        return;
      }
      Remember(name, path, sha1, download.size.number);
    }

    method Remember(name: string, path: string, sha1: Json, size: int)
      requires Valid()
      modifies this
      ensures Valid()
      ensures Value() ==
        if Contradicted(old(admitted), path, sha1) then old(Value()).(gaps := old(gaps) + [Conflict(name, path)])
        else if Listed(old(admitted), path) then old(Value())
        else old(Value()).(admitted := old(admitted) + [Row(name, path, sha1, size)])
    {
      if path in seen {
        if seen[path] != sha1 {
          gaps := gaps + [Conflict(name, path)];
        }
        return;
      }
      seen := seen[path := sha1];
      admitted := admitted + [Row(name, path, sha1, size)];
      assert admitted[|admitted| - 1] in admitted;
      assert forall row <- old(admitted) :: row in admitted;
    }

    method Scan(libraries: seq<Library>)
      requires Valid() && Value() == Outcome([], [])
      modifies this
      ensures Valid() && Value() == ScanOf(libraries)
    {
      for i := 0 to |libraries|
        invariant Valid() && Value() == ScanOf(libraries[..i])
      {
        EntriesStep(libraries, i);
        var library := libraries[i];
        var linux := AdmitsLinux(library.rules);
        if linux && AdmitsX86_64(library.name) {
          AdmitLibrary(library);
        }
      }
      assert libraries[..|libraries|] == libraries;
    }

    method AdmitLibrary(library: Library)
      requires Valid() && Kept(library)
      modifies this
      ensures Valid() && Value() == AdmitAll(old(Value()), Offers(library))
    {
      ghost var before := Value();
      AdmitArtifact(library);
      AdmitNative(library);
      AdmitAllConcat(before, ArtifactEntries(library), NativeEntries(library));
    }

    method AdmitArtifact(library: Library)
      requires Valid()
      modifies this
      ensures Valid() && Value() == AdmitAll(old(Value()), ArtifactEntries(library))
    {
      AdmitAtMostOne(Value(), ArtifactEntries(library));
      if library.artifact.Some? {
        Admit(library.name, library.artifact.value);
      }
    }

    method AdmitNative(library: Library)
      requires Valid()
      modifies this
      ensures Valid() && Value() == AdmitAll(old(Value()), NativeEntries(library))
    {
      AdmitAtMostOne(Value(), NativeEntries(library));
      if library.native.Some? {
        var classifier := ReplaceArch(library.native.value);
        if classifier !in library.classifiers {
          gaps := gaps + [NoClassifier(library.name, classifier)];
        } else {
          Admit(library.name + ":" + classifier, library.classifiers[classifier]);
        }
      } else if library.artifact.None? {
        gaps := gaps + [NoDownload(library.name)];
      }
    }
  }

  lemma AdmitAtMostOne(scan: Outcome, entries: seq<Entry>)
    requires |entries| <= 1
    ensures AdmitAll(scan, entries) == if entries == [] then scan else AdmitEntry(scan, entries[0])
  {
    if entries != [] {
      assert entries[..0] == [];
    }
  }

  lemma EntriesStep(libraries: seq<Library>, i: nat)
    requires i < |libraries|
    ensures ScanOf(libraries[..i + 1]) == AdmitAll(ScanOf(libraries[..i]), Offers(libraries[i]))
  {
    assert libraries[..i + 1] == libraries[..i] + [libraries[i]];
    FlatConcat(libraries[..i], [libraries[i]], Offers);
    FlatOne(libraries[i], Offers);
    AdmitAllConcat(Outcome([], []), Entries(libraries[..i]), Offers(libraries[i]));
  }

  // ---- What a gap-free scan holds ----

  // The rows of every judgeable entry, in order.
  function RowsOf(entries: seq<Entry>): seq<Row> {
    Flat(entries, RowOf)
  }

  function RowOf(entry: Entry): (r: seq<Row>)
    ensures |r| <= 1
  {
    if entry.Take? then
      var row := Judge(entry.name, entry.download);
      if row.Ok? then [row.value] else []
    else []
  }

  // Rows whose path no earlier row has, in order.
  function FirstOccurrences(rows: seq<Row>): seq<Row>
    decreases |rows|
  {
    if rows == [] then []
    else
      var last := |rows| - 1;
      FirstOccurrences(rows[..last]) + if Listed(rows[..last], rows[last].path) then [] else [rows[last]]
  }

  predicate Readings(entries: seq<Entry>) {
    forall entry <- entries :: RowOf(entry) != []
  }

  predicate Consistent(rows: seq<Row>) {
    forall i, j :: 0 <= i < |rows| && 0 <= j < |rows| && rows[i].path == rows[j].path ==> rows[i].sha1 == rows[j].sha1
  }

  predicate PathsDistinct(rows: seq<Row>) {
    forall i, j :: 0 <= i < j < |rows| ==> rows[i].path != rows[j].path
  }

  lemma {:induction false} FirstOccurrencesList(rows: seq<Row>)
    ensures PathsDistinct(FirstOccurrences(rows))
    ensures forall row <- FirstOccurrences(rows) :: row in rows
    ensures forall path :: Listed(FirstOccurrences(rows), path) <==> Listed(rows, path)
    decreases |rows|
  {
    if rows != [] {
      var last := |rows| - 1;
      var init, row := rows[..last], rows[last];
      FirstOccurrencesList(init);
      assert rows == init + [row];
      var first := FirstOccurrences(init);
      if !Listed(init, row.path) {
        assert FirstOccurrences(rows) == first + [row];
        assert !Listed(first, row.path);
        assert forall i :: 0 <= i < |first| ==> first[i] in first;
        forall path ensures Listed(FirstOccurrences(rows), path) <==> Listed(rows, path) {
          ListedAppend(first, row, path);
          ListedAppend(init, row, path);
        }
      } else {
        assert FirstOccurrences(rows) == first;
        forall path ensures Listed(FirstOccurrences(rows), path) <==> Listed(rows, path) {
          ListedAppend(init, row, path);
        }
      }
    }
  }

  lemma ListedAppend(rows: seq<Row>, row: Row, path: string)
    ensures Listed(rows + [row], path) <==> Listed(rows, path) || row.path == path
  {
    assert (rows + [row])[|rows|] == row;
    assert forall other <- rows :: other in rows + [row];
  }

  // Whatever the gaps, the admitted rows are the first occurrences.
  lemma {:induction false} AdmittedAreFirst(entries: seq<Entry>)
    ensures AdmitAll(Outcome([], []), entries).admitted == FirstOccurrences(RowsOf(entries))
    decreases |entries|
  {
    if entries != [] {
      var last := |entries| - 1;
      AdmittedAreFirst(entries[..last]);
      var rows, more := RowsOf(entries[..last]), RowOf(entries[last]);
      FirstOccurrencesList(rows);
      if more == [] {
        assert rows + more == rows;
      } else {
        assert (rows + more)[..|rows|] == rows && (rows + more)[|rows|] == more[0];
        assert Contradicted(FirstOccurrences(rows), more[0].path, more[0].sha1) ==>
            Listed(FirstOccurrences(rows), more[0].path);
      }
    }
  }

  lemma ConsistentAppend(rows: seq<Row>, row: Row)
    ensures Consistent(rows + [row]) <==> Consistent(rows) && !Contradicted(rows, row.path, row.sha1)
  {
    var all := rows + [row];
    assert all[|rows|] == row && forall i :: 0 <= i < |rows| ==> all[i] == rows[i];
    if Consistent(all) {
      assert forall i :: 0 <= i < |rows| ==> all[i].path == row.path ==> all[i].sha1 == all[|rows|].sha1;
    }
    if !Contradicted(rows, row.path, row.sha1) {
      assert forall i :: 0 <= i < |rows| ==> rows[i] in rows;
    }
  }

  // Consistent rows contradict a digest exactly where their first occurrences do.
  lemma FirstContradicts(rows: seq<Row>, path: string, sha1: Json)
    requires Consistent(rows)
    ensures Contradicted(FirstOccurrences(rows), path, sha1) <==> Contradicted(rows, path, sha1)
  {
    var first := FirstOccurrences(rows);
    FirstOccurrencesList(rows);
    if Contradicted(rows, path, sha1) {
      var row :| row in rows && row.path == path && row.sha1 != sha1;
      assert Listed(rows, path) && Listed(first, path);
      var kept :| kept in first && kept.path == path;
      assert kept in rows;
      SameDigest(rows, kept, row);
    }
  }

  lemma SameDigest(rows: seq<Row>, a: Row, b: Row)
    requires Consistent(rows) && a in rows && b in rows && a.path == b.path
    ensures a.sha1 == b.sha1
  {
    var i :| 0 <= i < |rows| && rows[i] == a;
    var j :| 0 <= j < |rows| && rows[j] == b;
  }

  lemma GapStep(before: Outcome, rows: seq<Row>, entry: Entry)
    requires before.admitted == FirstOccurrences(rows) && (before.gaps == [] ==> Consistent(rows))
    ensures AdmitEntry(before, entry).gaps == [] <==>
      before.gaps == [] && RowOf(entry) != [] && Consistent(rows + RowOf(entry))
  {
    if before.gaps == [] && RowOf(entry) != [] {
      var row := RowOf(entry)[0];
      assert RowOf(entry) == [row];
      ConsistentAppend(rows, row);
      FirstContradicts(rows, row.path, row.sha1);
    }
  }

  lemma ReadingsStep(init: seq<Entry>, entry: Entry)
    ensures Readings(init + [entry]) <==> Readings(init) && RowOf(entry) != []
    ensures RowsOf(init + [entry]) == RowsOf(init) + RowOf(entry)
    ensures AdmitAll(Outcome([], []), init + [entry]) == AdmitEntry(AdmitAll(Outcome([], []), init), entry)
  {
    assert (init + [entry])[..|init|] == init && (init + [entry])[|init|] == entry;
    FlatConcat(init, [entry], RowOf);
    FlatOne(entry, RowOf);
    assert forall other <- init :: other in init + [entry];
  }

  // No gaps exactly when every entry can be read and no path has two digests.
  lemma {:induction false} GapFreeExactly(entries: seq<Entry>)
    ensures AdmitAll(Outcome([], []), entries).gaps == [] <==> Readings(entries) && Consistent(RowsOf(entries))
    decreases |entries|
  {
    if entries != [] {
      var last := |entries| - 1;
      var init, entry := entries[..last], entries[last];
      assert entries == init + [entry];
      GapFreeExactly(init);
      ReadingsStep(init, entry);
      AdmittedAreFirst(init);
      GapStep(AdmitAll(Outcome([], []), init), RowsOf(init), entry);
      if Consistent(RowsOf(init) + RowOf(entry)) {
        ConsistentPrefix(RowsOf(init), RowOf(entry));
      }
    }
  }

  lemma ConsistentPrefix(rows: seq<Row>, more: seq<Row>)
    requires Consistent(rows + more)
    ensures Consistent(rows)
  {
    assert forall i :: 0 <= i < |rows| ==> (rows + more)[i] == rows[i];
  }

  // ---- Scan soundness and completeness ----

  // A kept library offers its artifact, and the native its marker-free classifier names; a classifier
  // that is not there is a gap, and so is having neither.
  ghost predicate OfferedBy(libraries: seq<Library>, i: nat, entry: Entry) {
    && i < |libraries|
    && var library := libraries[i];
      && RulesAdmit(library.rules) && AdmitsX86_64(library.name)
      && (OffersArtifact(library, entry) || OffersNative(library, entry) || OffersNothing(library, entry))
  }

  ghost predicate OffersArtifact(library: Library, entry: Entry) {
    library.artifact.Some? && entry == Take(library.name, library.artifact.value)
  }

  ghost predicate OffersNative(library: Library, entry: Entry) {
    && library.native.Some?
    && var classifier := ReplaceArch(library.native.value);
      && (classifier in library.classifiers ==>
            entry == Take(library.name + ":" + classifier, library.classifiers[classifier]))
      && (classifier !in library.classifiers ==> entry == Hole(NoClassifier(library.name, classifier)))
  }

  ghost predicate OffersNothing(library: Library, entry: Entry) {
    library.artifact.None? && library.native.None? && entry == Hole(NoDownload(library.name))
  }

  // A library's artifact comes before its native, and a library's entries before the next one's.
  lemma OffersInOrder(library: Library, artifact: Entry, native: Entry)
    requires RulesAdmit(library.rules) && AdmitsX86_64(library.name)
    requires OffersArtifact(library, artifact) && OffersNative(library, native)
    ensures Offers(library) == [artifact, native]
  {
    assert [artifact] + [native] == [artifact, native];
  }

  lemma EntriesInOrder(before: seq<Library>, library: Library, after: seq<Library>)
    ensures Entries(before + [library] + after) == Entries(before) + Offers(library) + Entries(after)
  {
    FlatConcat(before + [library], after, Offers);
    FlatConcat(before, [library], Offers);
    FlatOne(library, Offers);
  }

  lemma OffersExactly(library: Library, entry: Entry)
    ensures entry in Offers(library) <==> OfferedBy([library], 0, entry)
  {
  }

  lemma EntriesOffered(libraries: seq<Library>, entry: Entry)
    ensures entry in Entries(libraries) <==> exists i: nat :: OfferedBy(libraries, i, entry)
  {
    FlatMember(libraries, Offers, entry);
    forall i: nat | i < |libraries| ensures entry in Offers(libraries[i]) <==> OfferedBy(libraries, i, entry) {
      OffersExactly(libraries[i], entry);
    }
  }

  lemma RowsFromEntries(entries: seq<Entry>, row: Row)
    ensures row in RowsOf(entries) <==> exists entry <- entries :: row in RowOf(entry)
  {
    FlatMember(entries, RowOf, row);
  }

  lemma JudgedRow(entry: Entry, row: Row)
    ensures row in RowOf(entry) ==>
      && entry.Take? && PublishedAs(entry.download, row.path) && PlainPath(row.path) && row.name == entry.name
      && entry.download.sha1 == row.sha1 && (exists text :: Digested(row.sha1, text))
      && entry.download.size == Number(row.size)
  {
    if row in RowOf(entry) {
      JudgedExactly(entry.name, entry.download, row);
    }
  }

  ghost predicate Origin(libraries: seq<Library>, row: Row, i: nat, entry: Entry) {
    && OfferedBy(libraries, i, entry)
    && entry.Take? && row.name == entry.name
    && PublishedAs(entry.download, row.path) && PlainPath(row.path)
    && entry.download.sha1 == row.sha1 && (exists text :: Digested(row.sha1, text))
    && entry.download.size == Number(row.size)
  }

  // Sound with or without gaps: an admitted row is a download a kept library offers, and no path
  // comes twice.
  lemma ScanSound(libraries: seq<Library>)
    ensures var scan := ScanOf(libraries);
      && PathsDistinct(scan.admitted)
      && forall row <- scan.admitted :: exists i, entry :: Origin(libraries, row, i, entry)
  {
    var entries := Entries(libraries);
    AdmittedAreFirst(entries);
    FirstOccurrencesList(RowsOf(entries));
    forall row <- ScanOf(libraries).admitted ensures exists i, entry :: Origin(libraries, row, i, entry) {
      RowsFromEntries(entries, row);
      var entry :| entry in entries && row in RowOf(entry);
      EntriesOffered(libraries, entry);
      var i: nat :| OfferedBy(libraries, i, entry);
      JudgedRow(entry, row);
      assert Origin(libraries, row, i, entry);
    }
  }

  // Complete without gaps: everything a kept library offers is admitted, under its own digest.
  lemma ScanComplete(libraries: seq<Library>, i: nat, entry: Entry)
    requires ScanOf(libraries).gaps == [] && OfferedBy(libraries, i, entry)
    ensures entry.Take? && exists row <- ScanOf(libraries).admitted ::
      PublishedAs(entry.download, row.path) && entry.download.sha1 == row.sha1
  {
    var entries := Entries(libraries);
    EntriesOffered(libraries, entry);
    GapFreeExactly(entries);
    AdmittedAreFirst(entries);
    var rows := RowsOf(entries);
    FirstOccurrencesList(rows);
    var row := RowOf(entry)[0];
    JudgedRow(entry, row);
    RowsFromEntries(entries, row);
    assert Listed(rows, row.path);
    var kept :| kept in FirstOccurrences(rows) && kept.path == row.path;
    SameDigest(rows, kept, row);
  }

  // ---- Writing the table ----

  function TableJar(row: Row): Jar {
    var sha1 := DigestText(row.sha1);
    Jar(row.path, if sha1.Some? then sha1.value else "", row.size)
  }

  // A row is written under its path, with the text its digest has and its size.
  lemma TableJarExactly(libraries: seq<Library>, row: Row)
    requires row in ScanOf(libraries).admitted
    ensures Digested(row.sha1, TableJar(row).sha1)
    ensures TableJar(row).path == row.path && TableJar(row).size == row.size
  {
    ScanSound(libraries);
    var i, entry :| Origin(libraries, row, i, entry);
    DigestStated(row.sha1);
    DigestExactly(row.sha1, DigestText(row.sha1).value);
  }

  function TableJars(rows: seq<Row>): (r: seq<Jar>)
    ensures |r| == |rows| && forall i :: 0 <= i < |r| ==> r[i] == TableJar(rows[i])
  {
    seq(|rows|, i requires 0 <= i < |rows| => TableJar(rows[i]))
  }

  function BlockOf(release: Release): Block {
    Block(release.name, TableJars(ScanOf(release.libraries).admitted))
  }

  function BlocksOf(releases: seq<Release>): seq<Block>
    decreases |releases|
  {
    if releases == [] then []
    else
      var last := |releases| - 1;
      BlocksOf(releases[..last]) + [BlockOf(releases[last])]
  }

  predicate GapFree(releases: seq<Release>) {
    forall release <- releases :: ScanOf(release.libraries).gaps == []
  }

  lemma ReleaseStep(releases: seq<Release>, i: nat)
    requires i < |releases|
    ensures var scan := ScanOf(releases[i].libraries);
      && BlocksOf(releases[..i + 1]) == BlocksOf(releases[..i]) + [Block(releases[i].name, TableJars(scan.admitted))]
      && (GapFree(releases[..i + 1]) <==> GapFree(releases[..i]) && scan.gaps == [])
  {
    assert releases[..i + 1][..i] == releases[..i];
    assert releases[..i + 1] == releases[..i] + [releases[i]];
  }

  // The lines joined, and a final newline.
  function Generated(comments: seq<string>, releases: seq<Release>): string
    requires comments != []
  {
    Join(comments + BlockLines(BlocksOf(releases)), '\n') + "\n"
  }

  method ScanRelease(release: Release) returns (scan: Outcome)
    ensures scan == ScanOf(release.libraries)
  {
    var runtime := new Runtime();
    runtime.Scan(release.libraries);
    scan := Outcome(runtime.admitted, runtime.gaps);
  }

  method ScanReleases(releases: seq<Release>) returns (blocks: seq<Block>, gapFree: bool)
    ensures blocks == BlocksOf(releases)
    ensures gapFree <==> GapFree(releases)
  {
    blocks, gapFree := [], true;
    for i := 0 to |releases|
      invariant blocks == BlocksOf(releases[..i])
      invariant gapFree <==> GapFree(releases[..i])
    {
      ReleaseStep(releases, i);
      var scan := ScanRelease(releases[i]);
      blocks := blocks + [Block(releases[i].name, TableJars(scan.admitted))];
      gapFree := gapFree && scan.gaps == [];
    }
    assert releases[..|releases|] == releases;
  }

  // The committed table, which one gap anywhere leaves as it was.
  class Destination {
    var contents: Option<string>

    constructor (committed: Option<string>)
      ensures contents == committed
    {
      contents := committed;
    }

    method Run(comments: seq<string>, releases: seq<Release>) returns (written: bool)
      requires comments != []
      modifies this
      ensures written <==> GapFree(releases)
      ensures contents == if GapFree(releases) then Some(Generated(comments, releases)) else old(contents)
    {
      var blocks, gapFree := ScanReleases(releases);
      written := gapFree;
      if written {
        contents := Some(Join(comments + BlockLines(blocks), '\n') + "\n");
      }
    }
  }

  lemma {:induction false} JoinedIsWritten(lines: seq<string>)
    requires lines != []
    ensures Join(lines, '\n') + "\n" == Written(lines)
    decreases |lines|
  {
    if |lines| > 1 {
      JoinedIsWritten(lines[1..]);
      var rest := Join(lines[1..], '\n');
      assert lines[0] + ['\n'] + rest + "\n" == lines[0] + "\n" + (rest + "\n");
    } else {
      assert Written(lines[1..]) == "";
      assert lines[0] + "\n" + "" == lines[0] + "\n";
    }
  }

  lemma RowSpellable(libraries: seq<Library>, row: Row)
    requires row in ScanOf(libraries).admitted
    ensures Spellable(TableJar(row))
  {
    ScanSound(libraries);
    var i, entry :| Origin(libraries, row, i, entry);
    DigestStated(row.sha1);
  }

  lemma AdmittedSpellable(libraries: seq<Library>)
    ensures AllSpellable(TableJars(ScanOf(libraries).admitted))
  {
    var rows := ScanOf(libraries).admitted;
    forall jar <- TableJars(rows) ensures Spellable(jar) {
      var k :| 0 <= k < |rows| && TableJar(rows[k]) == jar;
      RowSpellable(libraries, rows[k]);
    }
  }

  predicate PlainComments(comments: seq<string>) {
    forall line <- comments :: line != "" && line[0] == '#' && PlainLine(line)
  }

  predicate PlainReleases(releases: seq<Release>) {
    forall release <- releases :: '\n' !in release.name
  }

  lemma {:induction false} BlocksWellFormed(releases: seq<Release>)
    requires PlainReleases(releases)
    ensures WellFormed([], BlocksOf(releases))
    decreases |releases|
  {
    if releases != [] {
      var last := |releases| - 1;
      BlocksWellFormed(releases[..last]);
      assert releases[last] in releases;
      AdmittedSpellable(releases[last].libraries);
    }
  }

  // From metadata to the class path: a written table, read back, gives the selected release's
  // admitted rows in metadata order, exactly when each has a readable path and size.
  lemma GeneratedTableReads(comments: seq<string>, releases: seq<Release>, features: set<string>)
    requires comments != [] && PlainComments(comments) && PlainReleases(releases)
    requires PlainFeatures(features)
    ensures var jars := Selected(BlocksOf(releases), features);
      ParseTable(Generated(comments, releases), features) == Ok(jars) <==> AllReadable(jars)
  {
    var blocks := BlocksOf(releases);
    BlocksWellFormed(releases);
    JoinedIsWritten(comments + BlockLines(blocks));
    TableRoundTrip(comments, blocks, features);
  }

  // ---- A table that is written and not read back ----

  lemma OneOffer(library: Library, download: Download, row: Row)
    requires Kept(library) && library.artifact == Some(download) && library.native.None?
    requires Judge(library.name, download) == Ok(row)
    ensures ScanOf([library]) == Outcome([row], [])
  {
    var entry := Take(library.name, download);
    assert Offers(library) == [entry] by {
      assert [entry] + [] == [entry];
    }
    assert Entries([library]) == [entry] by {
      FlatOne(library, Offers);
    }
    OneEntry(entry, row);
  }

  lemma OneEntry(entry: Entry, row: Row)
    requires entry.Take? && Judge(entry.name, entry.download) == Ok(row)
    ensures AdmitAll(Outcome([], []), [entry]) == Outcome([row], [])
  {
    assert [entry][..0] == [];
    assert !Contradicted([], row.path, row.sha1) && !Listed([], row.path);
  }

  lemma ThreePartName(name: string)
    requires name == "a:a:1"
    ensures AdmitsX86_64(name)
  {
    SplitFirst("a", ':', "a:1");
    SplitFirst("a", ':', "1");
    SplitWord("1", ':');
    assert name == "a" + [':'] + "a:1" && "a:1" == "a" + [':'] + "1";
  }

  function ZeroDigest(): (digest: string)
    ensures IsSha1(digest)
  {
    seq(40, i => '0')
  }

  // A library published below the host as `#a.jar`. Nothing in its metadata is refused.
  function MarkedDownload(): Download {
    Download(Str(LIBRARIES + "#a.jar"), Str(ZeroDigest()), Number(1))
  }

  function MarkedRelease(): Release {
    Release("client", [Library("a:a:1", None, Some(MarkedDownload()), None, map[])])
  }

  lemma MarkedOffered()
    ensures ScanOf(MarkedRelease().libraries) == Outcome([Row("a:a:1", "#a.jar", Str(ZeroDigest()), 1)], [])
  {
    var row := Row("a:a:1", "#a.jar", Str(ZeroDigest()), 1);
    assert Judge("a:a:1", MarkedDownload()) == Ok(row) by {
      DigestExactly(row.sha1, ZeroDigest());
      JudgedExactly("a:a:1", MarkedDownload(), row);
    }
    ThreePartName("a:a:1");
    OneOffer(MarkedRelease().libraries[0], MarkedDownload(), row);
  }

  lemma OneBlock(release: Release)
    ensures BlocksOf([release]) == [Block(release.name, TableJars(ScanOf(release.libraries).admitted))]
    ensures GapFree([release]) <==> ScanOf(release.libraries).gaps == []
    ensures Selected(BlocksOf([release]), {release.name}) == TableJars(ScanOf(release.libraries).admitted)
  {
    assert [release][..0] == [];
  }

  lemma OneRowLost(comments: seq<string>, release: Release, jar: Jar)
    requires comments != [] && PlainComments(comments) && '\n' !in release.name && '\t' !in release.name
    requires TableJars(ScanOf(release.libraries).admitted) == [jar] && !Readable(jar)
    ensures Selected(BlocksOf([release]), {release.name}) == [jar]
    ensures ParseTable(Generated(comments, [release]), {release.name}) != Ok([jar])
  {
    OneBlock(release);
    GeneratedTableReads(comments, [release], {release.name});
    assert jar in [jar];
  }

  // Its row starts as a comment does: the generator writes the table, and reading it back does not
  // give the row.
  lemma MarkedPathLost(comments: seq<string>)
    requires comments != [] && PlainComments(comments)
    ensures var (release, jar) := (MarkedRelease(), Jar("#a.jar", ZeroDigest(), 1));
      && GapFree([release]) && Selected(BlocksOf([release]), {release.name}) == [jar]
      && ParseTable(Generated(comments, [release]), {release.name}) != Ok([jar])
  {
    MarkedJar();
    MarkedOffered();
    OneBlock(MarkedRelease());
    OneRowLost(comments, MarkedRelease(), Jar("#a.jar", ZeroDigest(), 1));
  }

  lemma OneTableJar(row: Row)
    ensures TableJars([row]) == [TableJar(row)]
  {
  }

  lemma MarkedJar()
    ensures TableJars(ScanOf(MarkedRelease().libraries).admitted) == [Jar("#a.jar", ZeroDigest(), 1)]
    ensures !Readable(Jar("#a.jar", ZeroDigest(), 1))
    ensures '\n' !in MarkedRelease().name && '\t' !in MarkedRelease().name
  {
    var row := Row("a:a:1", "#a.jar", Str(ZeroDigest()), 1);
    MarkedOffered();
    OneTableJar(row);
    MarkedUnreadable("#a.jar", "client");
    assert DigestText(row.sha1) == Some(ZeroDigest());
  }

  lemma MarkedUnreadable(path: string, name: string)
    requires path == "#a.jar" && name == "client"
    ensures !Readable(Jar(path, ZeroDigest(), 1)) && '\n' !in name && '\t' !in name
  {
  }
}
