// The assumptions about the platform can be met together: records have a codec that can be undone,
// beside an honest engine.
module Consistency {
  import opened Text
  import opened Paths
  import opened Model
  import opened Fingerprint
  import opened Refinement

  // ---- A text form for any record ----

  datatype Value = N(number: nat) | L(items: seq<Value>)

  function Code(v: Value): (r: seq<nat>)
    ensures |r| >= 2
    decreases v, 0
  {
    match v
    case N(number) => [0, number]
    case L(items) => [1, |items|] + Codes(items)
  }

  function Codes(items: seq<Value>): seq<nat>
    decreases items, |items|
  {
    if items == [] then [] else Code(items[0]) + Codes(items[1..])
  }

  // A code says where it ends.
  lemma {:induction false} CodeApart(v: Value, w: Value, x: seq<nat>, y: seq<nat>)
    requires Code(v) + x == Code(w) + y
    ensures v == w && x == y
    decreases v, 0
  {
    var s, t := Code(v) + x, Code(w) + y;
    assert s[0] == Code(v)[0] && t[0] == Code(w)[0] && s[1] == Code(v)[1] && t[1] == Code(w)[1];
    match v {
      case N(_) =>
        assert s[2..] == x && t[2..] == y;
      case L(items) =>
        assert s[2..] == Codes(items) + x && t[2..] == Codes(w.items) + y;
        CodesApart(items, w.items, x, y);
    }
  }

  lemma {:induction false} CodesApart(a: seq<Value>, b: seq<Value>, x: seq<nat>, y: seq<nat>)
    requires |a| == |b| && Codes(a) + x == Codes(b) + y
    ensures a == b && x == y
    decreases a, |a|
  {
    if a == [] {
      assert Codes(a) + x == x && Codes(b) + y == y;
    } else {
      Regrouped(Code(a[0]), Codes(a[1..]), x);
      Regrouped(Code(b[0]), Codes(b[1..]), y);
      CodeApart(a[0], b[0], Codes(a[1..]) + x, Codes(b[1..]) + y);
      CodesApart(a[1..], b[1..], x, y);
      assert a == [a[0]] + a[1..] && b == [b[0]] + b[1..];
    }
  }

  lemma Regrouped<T>(a: seq<T>, b: seq<T>, c: seq<T>)
    ensures a + b + c == a + (b + c)
  {
  }

  // Numbers as bytes: so many zeros, then a one.
  function Unary(code: seq<nat>): Bytes {
    if code == [] then [] else seq(code[0], i => 0) + ([1] + Unary(code[1..]))
  }

  lemma {:induction false} UnaryApart(a: seq<nat>, b: seq<nat>)
    requires Unary(a) == Unary(b)
    ensures a == b
    decreases |a|
  {
    if a == [] || b == [] {
      assert a != [] ==> |Unary(a)| > 0;
      assert b != [] ==> |Unary(b)| > 0;
    } else {
      var s, t := Unary(a), Unary(b);
      assert s[a[0]] == 1 && t[b[0]] == 1;
      assert (forall i :: 0 <= i < a[0] ==> s[i] == 0) && (forall i :: 0 <= i < b[0] ==> t[i] == 0);
      assert a[0] == b[0];
      assert s[a[0] + 1..] == Unary(a[1..]) && t[b[0] + 1..] == Unary(b[1..]);
      UnaryApart(a[1..], b[1..]);
      assert a == [a[0]] + a[1..] && b == [b[0]] + b[1..];
    }
  }

  function Written(v: Value): Bytes {
    Unary(Code(v))
  }

  lemma WrittenApart(v: Value, w: Value)
    requires Written(v) == Written(w)
    ensures v == w
  {
    UnaryApart(Code(v), Code(w));
    assert Code(v) + [] == Code(v) && Code(w) + [] == Code(w);
    CodeApart(v, w, [], []);
  }

  // ---- Records as values ----

  function Numbers(s: seq<nat>): Value {
    L(seq(|s|, i requires 0 <= i < |s| => N(s[i])))
  }

  function TextOf(s: string): Value {
    L(seq(|s|, i requires 0 <= i < |s| => N(s[i] as nat)))
  }

  lemma TextApart(a: string, b: string)
    ensures TextOf(a) == TextOf(b) <==> a == b
  {
    if TextOf(a) == TextOf(b) {
      assert |TextOf(a).items| == |a| && |TextOf(b).items| == |b|;
      assert forall i :: 0 <= i < |a| ==> TextOf(a).items[i] == N(a[i] as nat) && TextOf(b).items[i] == N(b[i] as nat);
    }
  }

  function ListOf<T>(view: T -> Value, s: seq<T>): Value {
    L(seq(|s|, i requires 0 <= i < |s| => view(s[i])))
  }

  ghost predicate Apart<T(!new)>(view: T -> Value) {
    forall a, b :: view(a) == view(b) ==> a == b
  }

  lemma ListApart<T(!new)>(view: T -> Value, a: seq<T>, b: seq<T>)
    requires Apart(view)
    ensures ListOf(view, a) == ListOf(view, b) ==> a == b
  {
    if ListOf(view, a) == ListOf(view, b) {
      assert |ListOf(view, a).items| == |a| && |ListOf(view, b).items| == |b|;
      forall i | 0 <= i < |a| ensures a[i] == b[i] {
        assert ListOf(view, a).items[i] == view(a[i]) && ListOf(view, b).items[i] == view(b[i]);
      }
    }
  }

  function ByteOf(b: Byte): Value {
    N(b as int)
  }

  function HexOf(h: HexText): Value {
    match h
    case Hex(digest) => L([N(0), ListOf(ByteOf, digest.content)])
    case Junk(text) => L([N(1), TextOf(text)])
  }

  function MaybeHex(h: Option<HexText>): Value {
    if h.Some? then L([HexOf(h.value)]) else L([])
  }

  lemma HexApart()
    ensures Apart(HexOf) && Apart(MaybeHex)
  {
    forall a, b ensures HexOf(a) == HexOf(b) ==> a == b {
      if HexOf(a) == HexOf(b) {
        assert HexOf(a).items[0] == HexOf(b).items[0] && HexOf(a).items[1] == HexOf(b).items[1];
        if a.Hex? {
          ListApart(ByteOf, a.digest.content, b.digest.content);
        } else {
          TextApart(a.text, b.text);
        }
      }
    }
    forall a, b ensures MaybeHex(a) == MaybeHex(b) ==> a == b {
      if MaybeHex(a) == MaybeHex(b) {
        assert |MaybeHex(a).items| == |MaybeHex(b).items|;
        if a.Some? {
          assert MaybeHex(a).items[0] == MaybeHex(b).items[0];
        }
      }
    }
  }

  // A pair of values, told apart by its parts.
  function Two(first: Value, second: Value): Value {
    L([first, second])
  }

  lemma TwoApart(a: Value, b: Value, c: Value, d: Value)
    requires Two(a, b) == Two(c, d)
    ensures a == c && b == d
  {
    assert Two(a, b).items[0] == Two(c, d).items[0] && Two(a, b).items[1] == Two(c, d).items[1];
  }

  function FileOf(f: FileFingerprint): Value {
    Two(TextOf(f.path), MaybeHex(f.digest))
  }

  function VariableOf(e: EnvironmentFingerprint): Value {
    Two(TextOf(e.name), MaybeHex(e.valueDigest))
  }

  function OutputOf(o: OutputArtifact): Value {
    Two(TextOf(o.path), HexOf(o.digest))
  }

  function DiagnosticOf(d: Diagnostic): Value {
    Two(N(if d.severity.Warning? then 0 else 1), TextOf(d.message))
  }

  lemma EntriesApart()
    ensures Apart(FileOf) && Apart(VariableOf) && Apart(OutputOf) && Apart(DiagnosticOf) && Apart(TextOf)
  {
    HexApart();
    forall a, b ensures TextOf(a) == TextOf(b) ==> a == b {
      TextApart(a, b);
    }
    forall a, b ensures FileOf(a) == FileOf(b) ==> a == b {
      if FileOf(a) == FileOf(b) {
        TwoApart(TextOf(a.path), MaybeHex(a.digest), TextOf(b.path), MaybeHex(b.digest));
      }
    }
    forall a, b ensures VariableOf(a) == VariableOf(b) ==> a == b {
      if VariableOf(a) == VariableOf(b) {
        TwoApart(TextOf(a.name), MaybeHex(a.valueDigest), TextOf(b.name), MaybeHex(b.valueDigest));
      }
    }
    forall a, b ensures OutputOf(a) == OutputOf(b) ==> a == b {
      if OutputOf(a) == OutputOf(b) {
        TwoApart(TextOf(a.path), HexOf(a.digest), TextOf(b.path), HexOf(b.digest));
      }
    }
    forall a, b ensures DiagnosticOf(a) == DiagnosticOf(b) ==> a == b {
      if DiagnosticOf(a) == DiagnosticOf(b) {
        TwoApart(N(if a.severity.Warning? then 0 else 1), TextOf(a.message),
                 N(if b.severity.Warning? then 0 else 1), TextOf(b.message));
      }
    }
  }

  function ValuesOf(m: map<string, string>, keys: seq<string>): (r: seq<string>)
    requires forall key <- keys :: key in m
    ensures |r| == |keys| && forall i :: 0 <= i < |r| ==> r[i] == m[keys[i]]
  {
    seq(|keys|, i requires 0 <= i < |keys| => m[keys[i]])
  }

  function MapOf(m: map<string, string>): Value {
    var keys := SortedStrings(m.Keys);
    Two(ListOf(TextOf, keys), ListOf(TextOf, ValuesOf(m, keys)))
  }

  lemma ValuesApart(a: map<string, string>, b: map<string, string>)
    requires a.Keys == b.Keys && ValuesOf(a, SortedStrings(a.Keys)) == ValuesOf(b, SortedStrings(b.Keys))
    ensures a == b
  {
    var keys := SortedStrings(a.Keys);
    forall key | key in a ensures a[key] == b[key] {
      assert key in keys;
      var i :| 0 <= i < |keys| && keys[i] == key;
      assert ValuesOf(a, keys)[i] == ValuesOf(b, keys)[i];
    }
  }

  lemma MapPairApart(a: map<string, string>, b: map<string, string>)
    requires MapOf(a) == MapOf(b) && Apart(TextOf)
    ensures a == b
  {
    var keys, others := SortedStrings(a.Keys), SortedStrings(b.Keys);
    TwoApart(ListOf(TextOf, keys), ListOf(TextOf, ValuesOf(a, keys)),
             ListOf(TextOf, others), ListOf(TextOf, ValuesOf(b, others)));
    ListApart(TextOf, keys, others);
    ListApart(TextOf, ValuesOf(a, keys), ValuesOf(b, others));
    SortedStringsInjective(a.Keys, b.Keys);
    ValuesApart(a, b);
  }

  lemma MapsApart()
    ensures Apart(MapOf)
  {
    EntriesApart();
    forall a: map<string, string>, b: map<string, string> ensures MapOf(a) == MapOf(b) ==> a == b {
      if MapOf(a) == MapOf(b) {
        MapPairApart(a, b);
      }
    }
  }

  function LimitsOf(l: Limits): Value {
    Numbers([
      l.maxScriptSize, l.maxOperations, l.maxStringSize, l.maxArraySize, l.maxMapSize, l.maxPathBytes,
      l.maxPathDepth, l.maxHostDirectiveBytes, l.maxOutputFiles, l.maxOutputFileSize,
      l.maxTotalOutputSize, l.maxCacheStateSize, l.maxTasks, l.maxTaskEdges, l.maxTaskLiteralBytes,
      l.maxTaskTerminals, l.maxPublicationRoots, l.maxFetchBytes])
  }

  function InputsOf(i: FingerprintInputs): Value {
    L([N(i.stateVersion), N(i.apiVersion), MaybeHex(i.cacheScope), TextOf(i.scriptPath), HexOf(i.scriptDigest),
       MaybeHex(i.manifestDigest), LimitsOf(i.limits), N(if i.filesMode.Declared? then 1 else 0),
       ListOf(FileOf, i.files), ListOf(VariableOf, i.environment), ListOf(TextOf, i.features)])
  }

  lemma LimitsApart(a: Limits, b: Limits)
    requires LimitsOf(a) == LimitsOf(b)
    ensures a == b
  {
    assert forall i :: 0 <= i < 18 ==> LimitsOf(a).items[i] == LimitsOf(b).items[i];
    var s, t := LimitsOf(a).items, LimitsOf(b).items;
    assert s[0] == t[0] && s[1] == t[1] && s[2] == t[2] && s[3] == t[3] && s[4] == t[4] && s[5] == t[5];
    assert s[6] == t[6] && s[7] == t[7] && s[8] == t[8] && s[9] == t[9] && s[10] == t[10] && s[11] == t[11];
    assert s[12] == t[12] && s[13] == t[13] && s[14] == t[14] && s[15] == t[15] && s[16] == t[16] && s[17] == t[17];
  }

  lemma InputsApart()
    ensures Apart(InputsOf)
  {
    HexApart();
    EntriesApart();
    forall a, b ensures InputsOf(a) == InputsOf(b) ==> a == b {
      if InputsOf(a) == InputsOf(b) {
        InputsTheSame(a, b);
      }
    }
  }

  lemma InputsTheSame(a: FingerprintInputs, b: FingerprintInputs)
    requires InputsOf(a) == InputsOf(b)
    ensures a == b
  {
    HexApart();
    EntriesApart();
    var s, t := InputsOf(a).items, InputsOf(b).items;
    assert s[0] == t[0] && s[1] == t[1] && s[2] == t[2] && s[3] == t[3] && s[4] == t[4] && s[5] == t[5];
    assert s[6] == t[6] && s[7] == t[7] && s[8] == t[8] && s[9] == t[9] && s[10] == t[10];
    LimitsApart(a.limits, b.limits);
    ListApart(FileOf, a.files, b.files);
    ListApart(VariableOf, a.environment, b.environment);
    ListApart(TextOf, a.features, b.features);
  }

  function WireOf(w: StateWire): Value {
    L([N(w.stateVersion), N(w.apiVersion), MaybeHex(w.cacheScope), TextOf(w.scriptPath), HexOf(w.fingerprint),
       InputsOf(w.fingerprintInputs), ListOf(OutputOf, w.outputs), TextOf(w.taskPlan.canonical),
       ListOf(TextOf, w.generatedSources), ListOf(TextOf, w.additionalClasspath),
       ListOf(TextOf, w.additionalModulePath), ListOf(TextOf, w.javacArgs), ListOf(TextOf, w.jvmArgs),
       MapOf(w.compileEnv), MapOf(w.runEnv), ListOf(TextOf, w.rerunFiles), ListOf(TextOf, w.rerunEnv),
       ListOf(DiagnosticOf, w.diagnostics), MapOf(w.metadata)])
  }

  lemma WireTheSame(a: StateWire, b: StateWire)
    requires WireOf(a) == WireOf(b)
    ensures a == b
  {
    HexApart();
    EntriesApart();
    MapsApart();
    InputsApart();
    var s, t := WireOf(a).items, WireOf(b).items;
    assert s[0] == t[0] && s[1] == t[1] && s[2] == t[2] && s[3] == t[3] && s[4] == t[4] && s[5] == t[5];
    assert s[6] == t[6] && s[7] == t[7] && s[8] == t[8] && s[9] == t[9] && s[10] == t[10] && s[11] == t[11];
    assert s[12] == t[12] && s[13] == t[13] && s[14] == t[14] && s[15] == t[15] && s[16] == t[16];
    assert s[17] == t[17] && s[18] == t[18];
    ListApart(OutputOf, a.outputs, b.outputs);
    ListApart(TextOf, a.generatedSources, b.generatedSources);
    ListApart(TextOf, a.additionalClasspath, b.additionalClasspath);
    ListApart(TextOf, a.additionalModulePath, b.additionalModulePath);
    ListApart(TextOf, a.javacArgs, b.javacArgs);
    ListApart(TextOf, a.jvmArgs, b.jvmArgs);
    ListApart(TextOf, a.rerunFiles, b.rerunFiles);
    ListApart(TextOf, a.rerunEnv, b.rerunEnv);
    ListApart(DiagnosticOf, a.diagnostics, b.diagnostics);
  }

  // ---- One platform that meets every assumption ----

  function EncodeState(w: StateWire): Bytes {
    Written(WireOf(w))
  }

  ghost function DecodeBack(bytes: Bytes): Option<StateWire> {
    if exists w :: EncodeState(w) == bytes then
      var w :| EncodeState(w) == bytes;
      Some(w)
    else None
  }

  function EncodeFingerprint(i: FingerprintInputs): Bytes {
    Written(InputsOf(i))
  }

  const NOTHING: Pending :=
    Pending(map[], Directives({}, {}, {}, [], [], map[], map[], {}, {}, [], map[], TaskPlan("")))

  // `Faithful` and `Honest` hold together of some platform, so the theorems that ask for them speak
  // of something.
  lemma AssumptionsHoldTogether() returns (p: Platform)
    ensures p.Faithful() && Honest(p)
  {
    p := Platform(
      (files: Tree, script: FileKey, environment: Environment, limits: Limits) => Ok(NOTHING),
      EncodeState, DecodeBack, EncodeFingerprint,
      (plan: TaskPlan, limits: TaskLimits) => true,
      (bytes: Bytes) => true,
      (bytes: Option<Bytes>) => Manifest(Some("build.java"), "target/classes"));
    forall w ensures p.decodeState(p.encodeState(w)) == Some(w) {
      var found := DecodeBack(EncodeState(w)).value;
      WrittenApart(WireOf(found), WireOf(w));
      WireTheSame(found, w);
    }
    forall a, b ensures p.encodeInputs(a) == p.encodeInputs(b) ==> a == b {
      if p.encodeInputs(a) == p.encodeInputs(b) {
        WrittenApart(InputsOf(a), InputsOf(b));
        InputsTheSame(a, b);
      }
    }
  }
}
