// Bytes, UTF-8, and the order Rust puts on strings.
module Text {
  import opened Orders

  type Byte = b: int | 0 <= b < 256
  type Bytes = seq<Byte>

  datatype Option<+T> = None | Some(value: T)
  datatype Result<+T, +E> = Ok(value: T) | Err(error: E)

  // ---- UTF-8 ----

  function CharUtf8(c: char): (r: Bytes)
    ensures 1 <= |r| <= 4
  {
    var n := c as int;
    var p := n / 0x40;
    var q := p / 0x40;
    var r := q / 0x40;
    if n < 0x80 then [n]
    else if n < 0x800 then [0xC0 + p, 0x80 + n % 0x40]
    else if n < 0x1_0000 then [0xE0 + q, 0x80 + p % 0x40, 0x80 + n % 0x40]
    else [0xF0 + r, 0x80 + q % 0x40, 0x80 + p % 0x40, 0x80 + n % 0x40]
  }

  function Utf8(s: string): Bytes {
    if s == "" then [] else CharUtf8(s[0]) + Utf8(s[1..])
  }

  // `str::len`.
  function Length(s: string): nat {
    |Utf8(s)|
  }

  // The bytes of a character hold its number: seven bits in one byte, or five, four or three in a lead
  // byte that says how many bytes of six follow.
  lemma CharUtf8Decodes(c: char)
    ensures var (n, b) := (c as int, CharUtf8(c));
      && (n < 0x80 ==> b == [n])
      && (0x80 <= n < 0x800 ==> |b| == 2 && 0xC0 <= b[0] < 0xE0 && n == (b[0] - 0xC0) * 0x40 + Low(b[1]))
      && (0x800 <= n < 0x1_0000 ==>
            |b| == 3 && 0xE0 <= b[0] < 0xF0 && n == (b[0] - 0xE0) * 0x1000 + Low(b[1]) * 0x40 + Low(b[2]))
      && (0x1_0000 <= n ==>
            && |b| == 4 && 0xF0 <= b[0] < 0xF8
            && n == (b[0] - 0xF0) * 0x4_0000 + Low(b[1]) * 0x1000 + Low(b[2]) * 0x40 + Low(b[3]))
      && forall i :: 0 < i < |b| ==> 0x80 <= b[i] < 0xC0
  {
    var n := c as int;
    assert n == n / 0x40 * 0x40 + n % 0x40 && n / 0x40 == n / 0x40 / 0x40 * 0x40 + n / 0x40 % 0x40;
  }

  // What a byte after the lead byte holds.
  function Low(b: Byte): int {
    b - 0x80
  }

  // The lead byte tells the width, so no character's encoding is a prefix of another's.
  lemma CharUtf8Prefix(c: char, d: char, x: Bytes, y: Bytes)
    requires CharUtf8(c) + x == CharUtf8(d) + y
    ensures c == d && x == y
  {
    var a, b := CharUtf8(c), CharUtf8(d);
    assert (a + x)[0] == a[0] && (b + y)[0] == b[0];
    assert |a| == |b|;
    assert (a + x)[..|a|] == a && (b + y)[..|b|] == b;
    assert (a + x)[|a|..] == x && (b + y)[|b|..] == y;
    CharUtf8Injective(c, d);
  }

  lemma CharUtf8Injective(c: char, d: char)
    requires CharUtf8(c) == CharUtf8(d)
    ensures c == d
  {
    var n, m := c as int, d as int;
    assert n % 0x40 == m % 0x40;
    if n >= 0x800 {
      assert n / 0x40 % 0x40 == m / 0x40 % 0x40;
    }
  }

  lemma {:induction false} Utf8Injective(s: string, t: string)
    requires Utf8(s) == Utf8(t)
    ensures s == t
  {
    if s != "" && t != "" {
      CharUtf8Prefix(s[0], t[0], Utf8(s[1..]), Utf8(t[1..]));
      Utf8Injective(s[1..], t[1..]);
      assert s == [s[0]] + s[1..] && t == [t[0]] + t[1..];
    }
  }

  lemma {:induction false} Utf8Concat(s: string, t: string)
    ensures Utf8(s + t) == Utf8(s) + Utf8(t)
    ensures Length(s + t) == Length(s) + Length(t)
  {
    if s == "" {
      assert s + t == t;
    } else {
      assert (s + t)[1..] == s[1..] + t;
      Utf8Concat(s[1..], t);
    }
  }

  // ---- Strings ----

  predicate CharLess(c: char, d: char) {
    c < d
  }

  // Code-point order, which for UTF-8 is also byte order.
  predicate Less(a: string, b: string) {
    Lex(CharLess, a, b)
  }

  lemma CharLessIsStrict()
    ensures StrictOrder(CharLess)
  {
  }

  lemma LessIsStrict()
    ensures StrictOrder(Less)
  {
    CharLessIsStrict();
    LexIsStrict(CharLess);
    var lex := (a: string, b: string) => Lex(CharLess, a, b);
    assert forall a: string, b: string :: lex(a, b) == Less(a, b);
  }

  // ---- Splitting and joining ----

  // `str::split`: the pieces between separators, always at least one.
  function Split(s: string, separator: char): (r: seq<string>)
    ensures |r| >= 1
  {
    if s == "" then [""]
    else
      var rest := Split(s[1..], separator);
      if s[0] == separator then [""] + rest else [[s[0]] + rest[0]] + rest[1..]
  }

  function Join(parts: seq<string>, separator: char): string
    requires |parts| >= 1
  {
    if |parts| == 1 then parts[0] else parts[0] + [separator] + Join(parts[1..], separator)
  }

  lemma {:induction false} SplitWord(word: string, separator: char)
    requires separator !in word
    ensures Split(word, separator) == [word]
  {
    if word != "" {
      SplitWord(word[1..], separator);
      assert [word[0]] + word[1..] == word;
    }
  }

  lemma {:induction false} SplitFirst(word: string, separator: char, rest: string)
    requires separator !in word
    ensures Split(word + [separator] + rest, separator) == [word] + Split(rest, separator)
  {
    var s := word + [separator] + rest;
    if word == "" {
      assert s[1..] == rest;
    } else {
      assert s[1..] == word[1..] + [separator] + rest;
      SplitFirst(word[1..], separator, rest);
      assert [s[0]] + word[1..] == word;
    }
  }

  lemma {:induction false} SplitConcat(a: string, b: string, separator: char)
    ensures Split(a + [separator] + b, separator) == Split(a, separator) + Split(b, separator)
    decreases |a|
  {
    var s := a + [separator] + b;
    if a == "" {
      assert s[0] == separator && s[1..] == b;
    } else {
      assert s[0] == a[0] && s[1..] == a[1..] + [separator] + b;
      SplitConcat(a[1..], b, separator);
    }
  }

  lemma {:induction false} SplitJoin(parts: seq<string>, separator: char)
    requires |parts| >= 1 && forall part :: part in parts ==> separator !in part
    ensures Split(Join(parts, separator), separator) == parts
    decreases |parts|
  {
    if |parts| == 1 {
      SplitWord(parts[0], separator);
    } else {
      SplitJoin(parts[1..], separator);
      SplitFirst(parts[0], separator, Join(parts[1..], separator));
    }
  }

  lemma JoinFirst(head: string, parts: seq<string>, separator: char)
    requires |parts| >= 1
    ensures Join([head] + parts, separator) == head + [separator] + Join(parts, separator)
    ensures Join([head + parts[0]] + parts[1..], separator) == head + Join(parts, separator)
  {
    assert ([head] + parts)[1..] == parts;
    var longer := [head + parts[0]] + parts[1..];
    assert longer[1..] == parts[1..];
    if |parts| > 1 {
      assert head + parts[0] + [separator] + Join(parts[1..], separator)
          == head + (parts[0] + [separator] + Join(parts[1..], separator));
    }
  }

  lemma {:induction false} JoinSplit(s: string, separator: char)
    ensures Join(Split(s, separator), separator) == s
    ensures forall part :: part in Split(s, separator) ==> separator !in part
    decreases |s|
  {
    if s != "" {
      var head, rest := [s[0]], Split(s[1..], separator);
      assert s == head + s[1..];
      JoinSplit(s[1..], separator);
      if s[0] == separator {
        JoinFirst("", rest, separator);
      } else {
        JoinFirst(head, rest, separator);
        assert Split(s, separator) == [head + rest[0]] + rest[1..];
      }
    }
  }
}
