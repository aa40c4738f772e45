// Cache identity: content digests, the length-framed provenance fold, and the keys built from it.
module Identity {
  import opened Text
  import opened Paths
  import BigEndian

  // A content digest names the bytes it was taken of, so equal digests mean equal bytes.
  datatype Digest = Of(content: Bytes)

  datatype Scope = Root | Dependency(digest: Digest)

  // A digest inside a fold is one 32-byte block, so it stands for one symbol of the transcript.
  datatype Symbol = Octet(b: Byte) | Block(digest: Digest)

  datatype Provenance = Fold(transcript: seq<Symbol>)

  datatype Namespace = State | Output

  datatype CacheKey = CacheKey(namespace: Namespace, provenance: Provenance, content: Digest)

  const API_VERSION: nat := 11
  const STATE_VERSION: nat := 9

  const MAX_LENGTH: nat := 0x1_0000_0000_0000_0000

  function Octets(b: Bytes): (r: seq<Symbol>)
    ensures |r| == |b| && forall i :: 0 <= i < |b| ==> r[i] == Octet(b[i])
  {
    seq(|b|, i requires 0 <= i < |b| => Octet(b[i]))
  }

  function Ascii(s: string): (r: Bytes)
    requires forall i :: 0 <= i < |s| ==> s[i] < 128 as char
    ensures |r| == |s|
  {
    seq(|s|, i requires 0 <= i < |s| => s[i] as int)
  }

  // The two kind tags, `jals.build-script.state` and `jals.build-script.output`, NUL terminated.
  function Kind(namespace: Namespace): Bytes {
    match namespace
    case State => Ascii("jals.build-script.state\0")
    case Output => Ascii("jals.build-script.output\0")
  }

  function Frame(b: Bytes): seq<Symbol> {
    Octets(BigEndian.Encode(|b|, 8)) + Octets(b)
  }

  function ScopeSymbols(scope: Scope): seq<Symbol> {
    match scope
    case Root => [Octet(0)]
    case Dependency(digest) => [Octet(1), Block(digest)]
  }

  // Everything a key of this scope starts with.
  function ScopePrefix(namespace: Namespace, scope: Scope): seq<Symbol> {
    Octets(Kind(namespace)) + Octets(BigEndian.Encode(API_VERSION, 4)) + ScopeSymbols(scope)
  }

  function StateProvenance(scope: Scope, script: FileKey): Provenance {
    Fold(ScopePrefix(State, scope) + Frame(Utf8(Render(script))))
  }

  function OutputProvenance(scope: Scope, script: FileKey, output: FileKey): Provenance {
    Fold(ScopePrefix(Output, scope) + Frame(Utf8(Render(script))) + Frame(Utf8(Render(output))))
  }

  // What a key's transcript starts with: the kind, the interface version, and a byte for the scope,
  // with a dependency's digest after it.
  lemma Transcripts(script: FileKey, output: FileKey, dependency: Digest)
    ensures StateProvenance(Root, script).transcript
         == Octets(Ascii("jals.build-script.state\0") + [0, 0, 0, 11, 0]) + Frame(Utf8(Render(script)))
    ensures StateProvenance(Dependency(dependency), script).transcript
         == Octets(Ascii("jals.build-script.state\0") + [0, 0, 0, 11, 1]) + [Block(dependency)]
            + Frame(Utf8(Render(script)))
    ensures OutputProvenance(Root, script, output).transcript
         == Octets(Ascii("jals.build-script.output\0") + [0, 0, 0, 11, 0]) + Frame(Utf8(Render(script)))
            + Frame(Utf8(Render(output)))
    ensures OutputProvenance(Dependency(dependency), script, output).transcript
         == Octets(Ascii("jals.build-script.output\0") + [0, 0, 0, 11, 1]) + [Block(dependency)]
            + Frame(Utf8(Render(script))) + Frame(Utf8(Render(output)))
  {
    Prefixes(State, dependency);
    Prefixes(Output, dependency);
  }

  lemma Prefixes(namespace: Namespace, dependency: Digest)
    ensures ScopePrefix(namespace, Root) == Octets(Kind(namespace) + [0, 0, 0, 11, 0])
    ensures ScopePrefix(namespace, Dependency(dependency))
         == Octets(Kind(namespace) + [0, 0, 0, 11, 1]) + [Block(dependency)]
  {
    BigEndian.EncodeSmall(11, 4);
  }

  // A frame is eight length bytes, the first counting most, and then what it frames.
  lemma Framed(b: Bytes)
    requires |b| < 256
    ensures Frame(b) == Octets([0, 0, 0, 0, 0, 0, 0, |b|] + b)
  {
    BigEndian.EncodeSmall(|b|, 8);
  }

  // ---- The fold is unambiguous ----

  lemma OctetsInjective(a: Bytes, b: Bytes)
    requires Octets(a) == Octets(b)
    ensures a == b
  {
    forall i | 0 <= i < |a| ensures a[i] == b[i] {
      assert Octets(a)[i] == Octets(b)[i];
    }
  }

  lemma FrameUnambiguous(a: Bytes, b: Bytes, x: seq<Symbol>, y: seq<Symbol>)
    requires |a| < MAX_LENGTH && |b| < MAX_LENGTH
    requires Frame(a) + x == Frame(b) + y
    ensures a == b && x == y
  {
    var s, t := Frame(a) + x, Frame(b) + y;
    var la, lb := BigEndian.Encode(|a|, 8), BigEndian.Encode(|b|, 8);
    assert s[..8] == Octets(la) && t[..8] == Octets(lb);
    OctetsInjective(la, lb);
    BigEndian.Spans();
    BigEndian.DecodeEncode(|a|, 8);
    BigEndian.DecodeEncode(|b|, 8);
    assert s[8..8 + |a|] == Octets(a) && t[8..8 + |b|] == Octets(b);
    OctetsInjective(a, b);
    assert s[8 + |a|..] == x && t[8 + |b|..] == y;
  }

  lemma KindsDiffer()
    ensures |Kind(State)| == 24 && |Kind(Output)| == 25 && Kind(State)[18] != Kind(Output)[18]
  {
  }

  // Kind and scope are determined by a transcript's start, whatever follows.
  lemma ScopePrefixUnambiguous(
      n: Namespace, s: Scope, m: Namespace, t: Scope, x: seq<Symbol>, y: seq<Symbol>)
    requires ScopePrefix(n, s) + x == ScopePrefix(m, t) + y
    ensures n == m && s == t && x == y
  {
    KindsDiffer();
    var a, b := ScopePrefix(n, s) + x, ScopePrefix(m, t) + y;
    assert a[18] == Octet(Kind(n)[18]) && b[18] == Octet(Kind(m)[18]);
    var at := |Kind(n)| + 4;
    assert a[at] == ScopeSymbols(s)[0] && b[at] == ScopeSymbols(t)[0];
    if s.Dependency? {
      assert a[at + 1] == ScopeSymbols(s)[1] && b[at + 1] == ScopeSymbols(t)[1];
    }
    assert a[|ScopePrefix(n, s)|..] == x && b[|ScopePrefix(m, t)|..] == y;
  }

  ghost predicate Bounded(key: FileKey) {
    Length(Render(key)) < MAX_LENGTH
  }

  lemma OneFrame(a: Bytes, b: Bytes)
    requires |a| < MAX_LENGTH && |b| < MAX_LENGTH
    requires Frame(a) == Frame(b)
    ensures a == b
  {
    assert Frame(a) + [] == Frame(a) && Frame(b) + [] == Frame(b);
    FrameUnambiguous(a, b, [], []);
  }

  lemma SameRendering(a: FileKey, b: FileKey)
    requires Utf8(Render(a)) == Utf8(Render(b))
    ensures a == b
  {
    Utf8Injective(Render(a), Render(b));
    RenderInjective(a, b);
  }

  lemma StateIdentity(s: Scope, a: FileKey, t: Scope, b: FileKey)
    requires Bounded(a) && Bounded(b)
    requires StateProvenance(s, a) == StateProvenance(t, b)
    ensures s == t && a == b
  {
    ScopePrefixUnambiguous(State, s, State, t, Frame(Utf8(Render(a))), Frame(Utf8(Render(b))));
    OneFrame(Utf8(Render(a)), Utf8(Render(b)));
    SameRendering(a, b);
  }

  lemma OutputIdentity(s: Scope, a: FileKey, o: FileKey, t: Scope, b: FileKey, p: FileKey)
    requires Bounded(a) && Bounded(b) && Bounded(o) && Bounded(p)
    requires OutputProvenance(s, a, o) == OutputProvenance(t, b, p)
    ensures s == t && a == b && o == p
  {
    var x, y := Utf8(Render(a)), Utf8(Render(b));
    var u, v := Utf8(Render(o)), Utf8(Render(p));
    OutputTail(s, x, u, t, y, v);
    FrameUnambiguous(x, y, Frame(u), Frame(v));
    OneFrame(u, v);
    SameRendering(a, b);
    SameRendering(o, p);
  }

  lemma Associative<T>(a: seq<T>, b: seq<T>, c: seq<T>)
    ensures a + b + c == a + (b + c)
  {
  }

  lemma Rejoined<T>(prefix: seq<T>, whole: seq<T>)
    requires prefix <= whole
    ensures prefix + whole[|prefix|..] == whole
  {
  }

  lemma OutputTail(s: Scope, x: Bytes, u: Bytes, t: Scope, y: Bytes, v: Bytes)
    requires ScopePrefix(Output, s) + Frame(x) + Frame(u) == ScopePrefix(Output, t) + Frame(y) + Frame(v)
    ensures s == t && Frame(x) + Frame(u) == Frame(y) + Frame(v)
  {
    Associative(ScopePrefix(Output, s), Frame(x), Frame(u));
    Associative(ScopePrefix(Output, t), Frame(y), Frame(v));
    ScopePrefixUnambiguous(Output, s, Output, t, Frame(x) + Frame(u), Frame(y) + Frame(v));
  }

  // No state key is ever an output key.
  lemma KindsApart(s: Scope, a: FileKey, t: Scope, b: FileKey, o: FileKey)
    ensures StateProvenance(s, a) != OutputProvenance(t, b, o)
  {
    KindsDiffer();
    var x := StateProvenance(s, a).transcript;
    var y := OutputProvenance(t, b, o).transcript;
    assert x[18] == Octet(Kind(State)[18]) && y[18] == Octet(Kind(Output)[18]);
  }

  // ---- Which scope a key belongs to ----

  predicate BelongsTo(provenance: Provenance, scope: Scope) {
    || ScopePrefix(State, scope) <= provenance.transcript
    || ScopePrefix(Output, scope) <= provenance.transcript
  }

  lemma OwnKeys(scope: Scope, script: FileKey, output: FileKey)
    ensures BelongsTo(StateProvenance(scope, script), scope)
    ensures BelongsTo(OutputProvenance(scope, script, output), scope)
  {
  }

  lemma ScopesDisjoint(provenance: Provenance, s: Scope, t: Scope)
    requires BelongsTo(provenance, s) && BelongsTo(provenance, t)
    ensures s == t
  {
    var x := provenance.transcript;
    var n := if ScopePrefix(State, s) <= x then State else Output;
    var m := if ScopePrefix(State, t) <= x then State else Output;
    var a, b := ScopePrefix(n, s), ScopePrefix(m, t);
    Rejoined(a, x);
    Rejoined(b, x);
    ScopePrefixUnambiguous(n, s, m, t, x[|a|..], x[|b|..]);
  }
}
