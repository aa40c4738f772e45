// Portable project paths: validated segments, their `/`-joined rendering, and the two orders the
// program puts on them. `BTreeMap<FileKey, _>` compares segment by segment; a state record compares
// renderings. The two disagree, and `OrderAgreement` says exactly when.
module Paths {
  import opened Orders
  import opened Text

  predicate IsControl(c: char) {
    var n := c as int;
    n < 0x20 || 0x7F <= n < 0xA0
  }

  function AsciiUpper(s: string): string {
    seq(|s|, i requires 0 <= i < |s| => if 'a' <= s[i] <= 'z' then (s[i] as int - 32) as char else s[i])
  }

  predicate IsDevice(stem: string) {
    var upper := AsciiUpper(stem);
    || upper in {"CON", "PRN", "AUX", "NUL"}
    || (|upper| == 4 && upper[..3] in {"COM", "LPT"} && '1' <= upper[3] <= '9')
  }

  predicate ValidChar(c: char) {
    && c != '/' && c != '\\' && !IsControl(c)
    && c != '<' && c != '>' && c != ':' && c != '\"' && c != '|' && c != '?' && c != '*'
  }

  predicate ValidName(name: string) {
    && name != "" && name != "." && name != ".."
    && (forall i :: 0 <= i < |name| ==> ValidChar(name[i]))
    && name[|name| - 1] != '.' && name[|name| - 1] != ' '
    && !IsDevice(Split(name, '.')[0])
  }

  const DEVICES: set<string> := {
    "con", "prn", "aux", "nul", "com1", "com2", "com3", "com4", "com5", "com6", "com7", "com8", "com9",
    "lpt1", "lpt2", "lpt3", "lpt4", "lpt5", "lpt6", "lpt7", "lpt8", "lpt9"
  }

  // The same word in lower or upper case.
  predicate Spells(word: string, device: string) {
    && |word| == |device|
    && forall i :: 0 <= i < |word| ==>
         word[i] == device[i] || ('a' <= device[i] <= 'z' && word[i] as int == device[i] as int - 32)
  }

  lemma SpellsExactly(word: string, device: string)
    requires forall c <- device :: 'a' <= c <= 'z' || '0' <= c <= '9'
    ensures Spells(word, device) <==> AsciiUpper(word) == AsciiUpper(device)
  {
    if |word| == |device| {
      forall i | 0 <= i < |word|
        ensures AsciiUpper(word)[i] == AsciiUpper(device)[i] <==>
          word[i] == device[i] || ('a' <= device[i] <= 'z' && word[i] as int == device[i] as int - 32)
      {
        assert device[i] in device;
      }
    } else {
      assert |AsciiUpper(word)| != |AsciiUpper(device)|;
    }
  }

  lemma FourDevices()
    ensures AsciiUpper("con") == "CON" && AsciiUpper("prn") == "PRN" && AsciiUpper("aux") == "AUX"
    ensures AsciiUpper("nul") == "NUL"
  {
  }

  lemma Ports(c: char)
    requires '1' <= c <= '9'
    ensures AsciiUpper("com" + [c]) == "COM" + [c] && AsciiUpper("lpt" + [c]) == "LPT" + [c]
    ensures "com" + [c] in DEVICES && "lpt" + [c] in DEVICES
  {
    assert c == '1' ==> "com" + [c] == "com1" && "lpt" + [c] == "lpt1";
    assert c == '2' ==> "com" + [c] == "com2" && "lpt" + [c] == "lpt2";
    assert c == '3' ==> "com" + [c] == "com3" && "lpt" + [c] == "lpt3";
    assert c == '4' ==> "com" + [c] == "com4" && "lpt" + [c] == "lpt4";
    assert c == '5' ==> "com" + [c] == "com5" && "lpt" + [c] == "lpt5";
    assert c == '6' ==> "com" + [c] == "com6" && "lpt" + [c] == "lpt6";
    assert c == '7' ==> "com" + [c] == "com7" && "lpt" + [c] == "lpt7";
    assert c == '8' ==> "com" + [c] == "com8" && "lpt" + [c] == "lpt8";
    assert c == '9' ==> "com" + [c] == "com9" && "lpt" + [c] == "lpt9";
  }

  lemma PortOf(device: string)
    requires device in DEVICES && device !in {"con", "prn", "aux", "nul"}
    ensures |device| == 4 && '1' <= device[3] <= '9' && (device == "com" + [device[3]] || device == "lpt" + [device[3]])
  {
  }

  lemma DevicesPlain(device: string)
    requires device in DEVICES
    ensures forall c <- device :: 'a' <= c <= 'z' || '0' <= c <= '9'
  {
  }

  lemma DeviceIs(device: string)
    requires device in DEVICES
    ensures IsDevice(device)
  {
    FourDevices();
    if device !in {"con", "prn", "aux", "nul"} {
      PortOf(device);
      Ports(device[3]);
      assert AsciiUpper(device)[..3] in {"COM", "LPT"};
    }
  }

  lemma DeviceOf(stem: string) returns (device: string)
    requires IsDevice(stem)
    ensures device in DEVICES && AsciiUpper(stem) == AsciiUpper(device)
  {
    var upper := AsciiUpper(stem);
    FourDevices();
    if upper == "CON" {
      device := "con";
    } else if upper == "PRN" {
      device := "prn";
    } else if upper == "AUX" {
      device := "aux";
    } else if upper == "NUL" {
      device := "nul";
    } else {
      Ports(upper[3]);
      assert upper == upper[..3] + [upper[3]];
      device := (if upper[..3] == "COM" then "com" else "lpt") + [upper[3]];
    }
  }

  // Device names are refused in either case.
  lemma DeviceExactly(stem: string)
    ensures IsDevice(stem) <==> exists device <- DEVICES :: Spells(stem, device)
  {
    if IsDevice(stem) {
      var device := DeviceOf(stem);
      DevicesPlain(device);
      SpellsExactly(stem, device);
    }
    if device :| device in DEVICES && Spells(stem, device) {
      DevicesPlain(device);
      SpellsExactly(stem, device);
      DeviceIs(device);
    }
  }

  lemma CharExactly(c: char)
    ensures ValidChar(c) <==> c as int >= 0x20 && !(0x7F <= c as int < 0xA0) && c !in "/\\<>:\"|?*"
  {
    assert "/\\<>:\"|?*" == ['/', '\\', '<', '>', ':', '"', '|', '?', '*'];
  }

  // A name is refused for what it is, for a character in it, for its end, or for naming a device
  // before its first dot.
  lemma NameExactly(stem: string, rest: string, name: string)
    requires '.' !in stem && (name == stem || name == stem + "." + rest)
    ensures ValidName(name) <==>
      && name != "" && name != "." && name != ".."
      && (forall c <- name :: c as int >= 0x20 && !(0x7F <= c as int < 0xA0) && c !in "/\\<>:\"|?*")
      && name[|name| - 1] != '.' && name[|name| - 1] != ' '
      && !exists device <- DEVICES :: Spells(stem, device)
  {
    DeviceExactly(stem);
    forall c <- name
      ensures ValidChar(c) <==> c as int >= 0x20 && !(0x7F <= c as int < 0xA0) && c !in "/\\<>:\"|?*"
    {
      CharExactly(c);
    }
    if name == stem {
      SplitWord(stem, '.');
    } else {
      SplitFirst(stem, '.', rest);
    }
  }

  predicate ValidPath(path: seq<string>) {
    forall name <- path :: ValidName(name)
  }

  type Path = p: seq<string> | ValidPath(p)
  type FileKey = p: seq<string> | p != [] && ValidPath(p) witness ["a"]

  // `RelativePath::to_string`.
  function Render(path: seq<string>): string {
    if path == [] then "" else Join(path, '/')
  }

  function ParsePath(value: string): (r: Option<Path>) {
    if value == "" then Some([])
    else if value[0] == '/' || value[0] == '\\' then None
    else if |value| > 1 && value[1] == ':' && ('a' <= value[0] <= 'z' || 'A' <= value[0] <= 'Z') then None
    else if ValidPath(Split(value, '/')) then Some(Split(value, '/'))
    else None
  }

  function ParseFile(value: string): (r: Option<FileKey>) {
    var path := ParsePath(value);
    if path.Some? && path.value != [] then Some(path.value) else None
  }

  function Tail(path: seq<string>): string
    requires path != []
  {
    if |path| == 1 then "" else "/" + Render(path[1..])
  }

  lemma RenderHead(path: seq<string>)
    requires path != []
    ensures Render(path) == path[0] + Tail(path)
  {
  }

  lemma TailStarts(path: seq<string>)
    requires path != []
    ensures Tail(path) == "" <==> |path| == 1
    ensures Tail(path) == "" || Tail(path)[0] == '/'
  {
  }

  lemma NamesHaveNoSlash(path: Path)
    ensures forall name :: name in path ==> name != "" && '/' !in name && ValidChar(name[0])
  {
    forall name | name in path
      ensures name != "" && '/' !in name && ValidChar(name[0])
    {
      assert ValidName(name);
      assert forall i :: 0 <= i < |name| ==> ValidChar(name[i]);
    }
  }

  lemma RenderParses(key: FileKey)
    ensures ParseFile(Render(key)) == Some(key)
    ensures ParsePath(Render(key)) == Some(key)
  {
    NamesHaveNoSlash(key);
    SplitJoin(key, '/');
    RenderStarts(key);
  }

  lemma RenderStarts(key: FileKey)
    ensures var text := Render(key);
      text != "" && ValidChar(text[0]) && text[0] != '/' && (|text| > 1 ==> text[1] == '/' || ValidChar(text[1]))
  {
    RenderHead(key);
    NamesHaveNoSlash(key);
    var name, tail := key[0], Tail(key);
    assert name in key && ValidName(name);
    assert name[0] in name;
    if |name| > 1 {
      assert ValidChar(name[1]);
    } else {
      TailStarts(key);
    }
  }

  lemma ParseRenders(value: string)
    ensures ParseFile(value).Some? ==> Render(ParseFile(value).value) == value
  {
    JoinSplit(value, '/');
  }

  lemma RenderInjective(a: FileKey, b: FileKey)
    requires Render(a) == Render(b)
    ensures a == b
  {
    RenderParses(a);
    RenderParses(b);
  }

  // ---- The two orders ----

  predicate KeyLess(a: FileKey, b: FileKey) {
    Lex(Less, a, b)
  }

  lemma KeyLessIsStrict()
    ensures StrictOrder(KeyLess)
  {
    LessIsStrict();
    LexIsStrict(Less);
    var lex := (a: seq<string>, b: seq<string>) => Lex(Less, a, b);
    assert forall a: FileKey, b: FileKey :: lex(a, b) == KeyLess(a, b);
    assert StrictOrder(lex);
  }

  // `a` sorts first as a key and second as text: at some segment where the paths part, `a`'s segment
  // is a proper prefix of `b`'s, `a` goes on with a `/`, and `b` with a character below `/`.
  predicate Inverted(a: seq<string>, b: seq<string>) {
    exists i | 0 <= i < |a| - 1 && i < |b| :: InvertedAt(a, b, i)
  }

  predicate InvertedAt(a: seq<string>, b: seq<string>, i: nat)
    requires i < |a| && i < |b|
  {
    a[..i] == b[..i] && a[i] < b[i] && b[i][|a[i]|] < '/'
  }

  lemma {:induction false} PrefixNotGreater(a: string, b: string)
    requires a <= b
    ensures !Less(b, a)
    ensures a == b || Less(a, b)
  {
    CharLessIsStrict();
    if a != "" {
      PrefixNotGreater(a[1..], b[1..]);
      assert a == [a[0]] + a[1..] && b == [b[0]] + b[1..];
    }
  }

  // The first segments differ, neither being a prefix of the other.
  lemma OrderApart(a: FileKey, b: FileKey)
    requires !(a[0] <= b[0]) && !(b[0] <= a[0])
    ensures Less(Render(a), Render(b)) == Less(a[0], b[0])
  {
    RenderHead(a);
    RenderHead(b);
    LexExtend(CharLess, a[0], b[0], Tail(a), Tail(b));
  }

  // What follows a shared first segment: nothing or a slash on one side, more of a name on the other.
  lemma SlashAgainstName(tail: string, rest: string)
    requires tail == "" || tail[0] == '/'
    requires rest != "" && rest[0] != '/'
    ensures Less(tail, rest) <==> !(tail != "" && rest[0] < '/')
  {
  }

  // A text split after a prefix of its first part.
  lemma SplitInside(head: string, longer: string, tail: string)
    requires head < longer
    ensures longer[|head|..] + tail != [] && (longer[|head|..] + tail)[0] == longer[|head|]
    ensures longer + tail == head + (longer[|head|..] + tail)
  {
    assert longer == head + longer[|head|..];
  }

  lemma NameCharacter(path: FileKey, i: nat)
    requires i < |path[0]|
    ensures path[0][i] != '/'
  {
    NamesHaveNoSlash(path);
    assert path[0] in path && path[0][i] in path[0];
  }

  // The first segment of `a` is a proper prefix of that of `b`.
  lemma OrderNested(a: FileKey, b: FileKey)
    requires a[0] < b[0]
    ensures Less(Render(a), Render(b)) <==> !(|a| > 1 && b[0][|a[0]|] < '/')
  {
    var head, tail, rest := a[0], Tail(a), b[0][|a[0]|..] + Tail(b);
    SplitInside(head, b[0], Tail(b));
    RenderHead(a);
    RenderHead(b);
    TailStarts(a);
    NameCharacter(b, |head|);
    OrderAfter(head, tail, rest);
  }

  lemma OrderAfter(head: string, tail: string, rest: string)
    requires tail == "" || tail[0] == '/'
    requires rest != "" && rest[0] != '/'
    ensures Less(head + tail, head + rest) <==> !(tail != "" && rest[0] < '/')
  {
    LexPrefix(CharLess, head, tail, rest);
    SlashAgainstName(tail, rest);
  }

  lemma InvertedTail(a: seq<string>, b: seq<string>)
    requires a != [] && b != [] && a[0] == b[0]
    ensures Inverted(a, b) <==> Inverted(a[1..], b[1..])
  {
    var c, d := a[1..], b[1..];
    if Inverted(a, b) {
      var i :| 0 <= i < |a| - 1 && i < |b| && InvertedAt(a, b, i);
      assert i > 0;
      assert c[..i - 1] == a[..i][1..] && d[..i - 1] == b[..i][1..];
      assert InvertedAt(c, d, i - 1);
    }
    if Inverted(c, d) {
      var i :| 0 <= i < |c| - 1 && i < |d| && InvertedAt(c, d, i);
      assert a[..i + 1] == [a[0]] + c[..i] && b[..i + 1] == [b[0]] + d[..i];
      assert InvertedAt(a, b, i + 1);
    }
  }

  lemma SharedHead(a: seq<string>, b: seq<string>, i: nat)
    requires i < |a| && i < |b| && a[..i] == b[..i]
    ensures i > 0 ==> a[0] == b[0]
  {
    if i > 0 {
      assert a[..i][0] == a[0] && b[..i][0] == b[0];
    }
  }

  lemma InvertedHead(a: seq<string>, b: seq<string>)
    requires a != [] && b != [] && a[0] != b[0]
    ensures Inverted(a, b) <==> |a| > 1 && a[0] < b[0] && b[0][|a[0]|] < '/'
  {
    if Inverted(a, b) {
      var i :| 0 <= i < |a| - 1 && i < |b| && InvertedAt(a, b, i);
      SharedHead(a, b, i);
    }
    if |a| > 1 && a[0] < b[0] && b[0][|a[0]|] < '/' {
      assert InvertedAt(a, b, 0);
    }
  }

  // Key order and rendered order agree on exactly the pairs that are not inverted.
  lemma {:induction false} OrderAgreement(a: FileKey, b: FileKey)
    requires KeyLess(a, b)
    ensures Less(Render(a), Render(b)) <==> !Inverted(a, b)
    decreases |a|
  {
    if a[0] != b[0] {
      InvertedHead(a, b);
      if a[0] <= b[0] {
        OrderNested(a, b);
      } else {
        if b[0] <= a[0] { PrefixNotGreater(b[0], a[0]); }
        OrderApart(a, b);
      }
    } else if |a| == 1 {
      assert Lex(Less, a[1..], b[1..]) && b[1..] != [];
      RenderHead(a);
      RenderHead(b);
      PrefixNotGreater(Render(a), Render(b));
    } else {
      InvertedTail(a, b);
      assert Lex(Less, a[1..], b[1..]) && b[1..] != [];
      var head := a[0] + "/";
      assert Render(a) == head + Render(a[1..]);
      assert Render(b) == head + Render(b[1..]);
      LexPrefix(CharLess, head, Render(a[1..]), Render(b[1..]));
      OrderAgreement(a[1..], b[1..]);
    }
  }

  lemma {:induction false} InvertedIsLess(a: FileKey, b: FileKey)
    requires Inverted(a, b)
    ensures KeyLess(a, b)
    decreases |a|
  {
    if a[0] == b[0] {
      InvertedTail(a, b);
      InvertedIsLess(a[1..], b[1..]);
    } else {
      InvertedHead(a, b);
      PrefixNotGreater(a[0], b[0]);
    }
  }

  // ---- Sets of keys, as a record lists them ----

  function SortedKeys(keys: set<FileKey>): (r: seq<FileKey>)
    ensures |r| == |keys|
    ensures forall key :: key in r <==> key in keys
    ensures Ascending(KeyLess, r)
  {
    KeyLessIsStrict();
    Sorted(KeyLess, keys)
  }

  function LeastKey(keys: set<FileKey>): (key: FileKey)
    requires keys != {}
    ensures IsLeast<FileKey>(KeyLess, keys, key)
  {
    KeyLessIsStrict();
    Least<FileKey>(KeyLess, keys)
  }

  function RenderAll(keys: seq<FileKey>): (r: seq<string>)
    ensures |r| == |keys|
    ensures forall i :: 0 <= i < |r| ==> r[i] == Render(keys[i])
  {
    seq(|keys|, i requires 0 <= i < |keys| => Render(keys[i]))
  }

  // Whether a `BTreeSet<FileKey>` written out in its own order passes the string-order check.
  predicate RenderedInOrder(keys: set<FileKey>) {
    Ascending(Less, RenderAll(SortedKeys(keys)))
  }

  lemma RenderedInOrderExactly(keys: set<FileKey>)
    ensures RenderedInOrder(keys) <==> forall a, b | a in keys && b in keys :: !Inverted(a, b)
  {
    if RenderedInOrder(keys) {
      forall a, b | a in keys && b in keys
        ensures !Inverted(a, b)
      {
        OrderedNotInverted(keys, a, b);
      }
    }
    if forall a, b | a in keys && b in keys :: !Inverted(a, b) {
      NotInvertedOrdered(keys);
    }
  }

  lemma ListedLater(listed: seq<FileKey>, i: nat, j: nat)
    requires Ascending(KeyLess, listed) && i < |listed| && j < |listed| && KeyLess(listed[i], listed[j])
    ensures i < j
  {
    KeyLessIsStrict();
    if j < i {
      AscendingAt(KeyLess, listed, j, i);
    }
  }

  lemma OrderedPair(keys: set<FileKey>, a: FileKey, b: FileKey)
    requires RenderedInOrder(keys) && a in keys && b in keys && KeyLess(a, b)
    ensures Less(Render(a), Render(b))
  {
    var listed := SortedKeys(keys);
    var texts := RenderAll(listed);
    var i :| 0 <= i < |listed| && listed[i] == a;
    var j :| 0 <= j < |listed| && listed[j] == b;
    ListedLater(listed, i, j);
    LessIsStrict();
    AscendingAt(Less, texts, i, j);
  }

  lemma OrderedNotInverted(keys: set<FileKey>, a: FileKey, b: FileKey)
    requires RenderedInOrder(keys) && a in keys && b in keys
    ensures !Inverted(a, b)
  {
    if KeyLess(a, b) {
      OrderedPair(keys, a, b);
      OrderAgreement(a, b);
    } else if Inverted(a, b) {
      InvertedIsLess(a, b);
    }
  }

  lemma NotInvertedOrdered(keys: set<FileKey>)
    requires forall a, b | a in keys && b in keys :: !Inverted(a, b)
    ensures RenderedInOrder(keys)
  {
    var listed := SortedKeys(keys);
    forall i | 0 < i < |listed|
      ensures Less(RenderAll(listed)[i - 1], RenderAll(listed)[i])
    {
      assert listed[i - 1] in keys && listed[i] in keys && KeyLess(listed[i - 1], listed[i]);
      OrderAgreement(listed[i - 1], listed[i]);
    }
  }

  // A file beside a directory it shares a stem with is enough: `src/A` and `src.txt`.
  lemma SiblingFileInverts()
    ensures ValidPath(["src", "A"]) && ValidPath(["src.txt"])
    ensures Inverted(["src", "A"], ["src.txt"])
  {
    SiblingNames();
    SiblingFile();
    assert InvertedAt(["src", "A"], ["src.txt"], 0);
  }

  lemma SiblingNames()
    ensures ValidName("src") && ValidName("A")
  {
    PlainWord("src");
    PlainWord("A");
  }

  lemma SiblingFile()
    ensures ValidName("src.txt")
  {
    SplitFirst("src", '.', "txt");
    assert "src" + ['.'] + "txt" == "src.txt";
    PlainName("src.txt", "src");
  }

  lemma PlainName(name: string, stem: string)
    requires name != "" && stem != "" && Split(name, '.')[0] == stem
    requires (|stem| == 3 || |stem| == 4) ==> stem[0] in {'d', 'j', 's'}
    requires forall i :: 0 <= i < |name| ==> PlainChar(name[i])
    requires name[|name| - 1] != '.'
    ensures ValidName(name)
  {
    PlainStem(stem);
    forall i | 0 <= i < |name| ensures ValidChar(name[i]) {
      PlainIsValid(name[i]);
    }
    assert name != "." && name != "..";
  }

  lemma ManifestStem()
    ensures Split("jals.toml", '.')[0] == "jals"
  {
    SplitFirst("jals", '.', "toml");
    assert "jals" + ['.'] + "toml" == "jals.toml";
  }

  lemma ManifestName()
    ensures ValidName("jals.toml")
  {
    ManifestStem();
    PlainName("jals.toml", "jals");
  }

  // A name with no dot in it.
  lemma PlainWord(word: string)
    requires word != "" && forall i :: 0 <= i < |word| ==> PlainChar(word[i]) && word[i] != '.'
    requires (|word| == 3 || |word| == 4) ==> word[0] in {'d', 'j', 's'}
    ensures ValidName(word)
  {
    SplitWord(word, '.');
    PlainName(word, word);
  }

  lemma TargetName()
    ensures ValidName("target")
  {
    PlainWord("target");
  }

  lemma JalsName()
    ensures ValidName("jals")
  {
    PlainWord("jals");
  }

  lemma DepsName()
    ensures ValidName("deps")
  {
    PlainWord("deps");
  }

  lemma DependencyStem()
    ensures Split("dep.jar", '.')[0] == "dep"
  {
    SplitFirst("dep", '.', "jar");
    assert "dep" + ['.'] + "jar" == "dep.jar";
  }

  lemma DependencyFileName()
    ensures ValidName("dep.jar")
  {
    DependencyStem();
    PlainName("dep.jar", "dep");
  }

  // Where an acquired dependency is kept.
  lemma DependencyNames()
    ensures ValidPath(["target", "jals", "deps", "dep.jar"])
  {
    TargetName();
    JalsName();
    DepsName();
    DependencyFileName();
  }

  lemma ClassesName()
    ensures ValidName("classes")
  {
    PlainWord("classes");
  }

  lemma ClassFileName()
    ensures ValidName("A.class")
  {
    SplitFirst("A", '.', "class");
    assert "A" + ['.'] + "class" == "A.class";
    PlainName("A.class", "A");
  }

  // Where a compile puts a class.
  lemma ClassNames()
    ensures ValidPath(["target", "classes"]) && ValidPath(["target", "classes", "A.class"])
  {
    TargetName();
    ClassesName();
    ClassFileName();
  }

  lemma ClassesDirectory()
    ensures ValidPath(["target", "classes"]) && ParsePath("target/classes") == Some(["target", "classes"])
  {
    ClassNames();
    RenderParses(["target", "classes"]);
    assert ["target", "classes"][1..] == ["classes"];
    assert "target" + ['/'] + "classes" == "target/classes";
  }

  predicate PlainChar(c: char) {
    c == '.' || 'A' <= c <= 'Z' || 'a' <= c <= 'z'
  }

  lemma PlainIsValid(c: char)
    requires PlainChar(c)
    ensures ValidChar(c) && c != ' '
  {
  }

  lemma PlainStem(stem: string)
    requires (|stem| == 3 || |stem| == 4) ==> stem[0] in {'d', 'j', 's'}
    ensures !IsDevice(stem)
  {
    var upper := AsciiUpper(stem);
    assert |upper| == |stem|;
    if |stem| == 3 || |stem| == 4 {
      assert upper[0] in {'D', 'J', 'S'};
      assert |upper| == 4 ==> upper[..3][0] == upper[0];
    }
  }
}
