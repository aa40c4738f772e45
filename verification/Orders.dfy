// Strict total orders, the lexicographic order over one, and the ascending enumeration of a finite
// set. A `BTreeMap` or `BTreeSet` of the program is a `map` or `set` here; wherever the program
// iterates one, the model iterates `Sorted`.
module Orders {

  ghost predicate StrictOrder<T(!new)>(less: (T, T) -> bool) {
    && (forall x :: !less(x, x))
    && (forall x, y :: x == y || less(x, y) || less(y, x))
    && (forall x, y, z :: less(x, y) && less(y, z) ==> less(x, z))
  }

  // ---- Lexicographic order ----

  predicate Lex<T(==)>(less: (T, T) -> bool, a: seq<T>, b: seq<T>)
    decreases |a|
  {
    if b == [] then false
    else if a == [] then true
    else if a[0] != b[0] then less(a[0], b[0])
    else Lex(less, a[1..], b[1..])
  }

  lemma {:induction false} LexTransitive<T(!new)>(less: (T, T) -> bool, a: seq<T>, b: seq<T>, c: seq<T>)
    requires StrictOrder(less)
    requires Lex(less, a, b) && Lex(less, b, c)
    ensures Lex(less, a, c)
    decreases |a|
  {
    if a != [] {
      if a[0] == b[0] == c[0] {
        LexTransitive(less, a[1..], b[1..], c[1..]);
      } else {
        assert !less(a[0], a[0]) && (a[0] == b[0] || less(a[0], b[0])) && (b[0] == c[0] || less(b[0], c[0]));
      }
    }
  }

  lemma {:induction false} LexTotal<T(!new)>(less: (T, T) -> bool, a: seq<T>, b: seq<T>)
    requires StrictOrder(less)
    ensures a == b || Lex(less, a, b) || Lex(less, b, a)
    ensures !Lex(less, a, a)
    decreases |a|
  {
    if a != [] {
      LexTotal(less, a[1..], if b == [] then [] else b[1..]);
      if b != [] && a[0] == b[0] {
        assert a == [a[0]] + a[1..] && b == [b[0]] + b[1..];
      }
    }
  }

  lemma LexIsStrict<T(!new)>(less: (T, T) -> bool)
    requires StrictOrder(less)
    ensures StrictOrder((a: seq<T>, b: seq<T>) => Lex(less, a, b))
  {
    var lex := (a: seq<T>, b: seq<T>) => Lex(less, a, b);
    forall a: seq<T>, b: seq<T>
      ensures a == b || lex(a, b) || lex(b, a)
      ensures !lex(a, a)
    {
      LexTotal(less, a, b);
    }
    forall a: seq<T>, b: seq<T>, c: seq<T> | lex(a, b) && lex(b, c)
      ensures lex(a, c)
    {
      LexTransitive(less, a, b, c);
    }
  }

  // A common prefix does not matter.
  lemma {:induction false} LexPrefix<T(!new)>(less: (T, T) -> bool, p: seq<T>, x: seq<T>, y: seq<T>)
    ensures Lex(less, p + x, p + y) == Lex(less, x, y)
    decreases |p|
  {
    if p == [] {
      assert p + x == x && p + y == y;
    } else {
      assert (p + x)[1..] == p[1..] + x && (p + y)[1..] == p[1..] + y;
      LexPrefix(less, p[1..], x, y);
    }
  }

  // Where neither side is a prefix of the other, what follows does not matter.
  lemma {:induction false} LexExtend<T(!new)>(less: (T, T) -> bool, a: seq<T>, b: seq<T>, x: seq<T>, y: seq<T>)
    requires !(a <= b) && !(b <= a)
    ensures Lex(less, a + x, b + y) == Lex(less, a, b)
    decreases |a|
  {
    if a[0] == b[0] {
      assert a == [a[0]] + a[1..] && b == [b[0]] + b[1..];
      assert (a + x)[1..] == a[1..] + x && (b + y)[1..] == b[1..] + y;
      LexExtend(less, a[1..], b[1..], x, y);
    }
  }

  // ---- Ascending sequences ----

  // The program's `windows(2)` check.
  predicate Ascending<T>(less: (T, T) -> bool, s: seq<T>) {
    forall i :: 0 < i < |s| ==> less(s[i - 1], s[i])
  }

  lemma {:induction false} AscendingAt<T(!new)>(less: (T, T) -> bool, s: seq<T>, i: nat, j: nat)
    requires StrictOrder(less) && Ascending(less, s) && i < j < |s|
    ensures less(s[i], s[j])
    decreases j
  {
    if i + 1 < j {
      AscendingAt(less, s, i, j - 1);
      assert less(s[j - 1], s[j]);
    }
  }

  lemma AscendingPairs<T(!new)>(less: (T, T) -> bool, s: seq<T>)
    requires StrictOrder(less) && Ascending(less, s)
    ensures forall i, j :: 0 <= i < j < |s| ==> less(s[i], s[j])
    ensures forall i, j :: 0 <= i < j < |s| ==> s[i] != s[j]
  {
    forall i, j | 0 <= i < j < |s|
      ensures less(s[i], s[j]) && s[i] != s[j]
    {
      AscendingAt(less, s, i, j);
    }
  }

  function Elements<T(==)>(s: seq<T>): set<T> {
    set x | x in s
  }

  // An ascending sequence is determined by its elements.
  lemma {:induction false} AscendingUnique<T(!new)>(less: (T, T) -> bool, a: seq<T>, b: seq<T>)
    requires StrictOrder(less) && Ascending(less, a) && Ascending(less, b)
    requires Elements(a) == Elements(b)
    ensures a == b
    decreases |a|
  {
    if a == [] {
      assert forall i :: 0 <= i < |b| ==> b[i] in Elements(b);
    } else {
      assert a[0] in Elements(b) && b != [];
      AscendingPairs(less, a);
      AscendingPairs(less, b);
      var i :| 0 <= i < |b| && b[i] == a[0];
      assert b[0] in Elements(a);
      var j :| 0 <= j < |a| && a[j] == b[0];
      var x, y := a[0], b[0];
      assert (i == 0 || less(y, x)) && (j == 0 || less(x, y)) && !less(x, x);
      forall x ensures x in Elements(a[1..]) <==> x in Elements(b[1..]) {
        assert x in Elements(a[1..]) <==> x in Elements(a) && x != a[0];
        assert x in Elements(b[1..]) <==> x in Elements(b) && x != b[0];
      }
      AscendingUnique(less, a[1..], b[1..]);
    }
  }

  // ---- The least element and the sorted enumeration of a finite set ----

  ghost predicate IsLeast<T(!new)>(less: (T, T) -> bool, s: set<T>, m: T) {
    m in s && forall x :: x in s ==> x == m || less(m, x)
  }

  lemma {:induction false} LeastExists<T(!new)>(less: (T, T) -> bool, s: set<T>)
    requires StrictOrder(less) && s != {}
    ensures exists m :: IsLeast(less, s, m)
  {
    var x :| x in s;
    if s == {x} {
      assert IsLeast(less, s, x);
    } else {
      LeastExists(less, s - {x});
      var m :| IsLeast(less, s - {x}, m);
      var l := if less(x, m) then x else m;
      forall y | y in s ensures y == l || less(l, y) {
        assert y == x || y in s - {x};
      }
      assert IsLeast(less, s, l);
    }
  }

  lemma LeastUnique<T(!new)>(less: (T, T) -> bool, s: set<T>)
    requires StrictOrder(less)
    ensures forall m, n :: IsLeast(less, s, m) && IsLeast(less, s, n) ==> m == n
  {
    forall m, n | IsLeast(less, s, m) && IsLeast(less, s, n)
      ensures m == n
    {
      assert !less(m, m) && (m == n || less(m, n)) && (n == m || less(n, m));
    }
  }

  function Least<T(==, !new)>(less: (T, T) -> bool, s: set<T>): (m: T)
    requires StrictOrder(less) && s != {}
    ensures IsLeast(less, s, m)
  {
    LeastExists(less, s);
    LeastUnique(less, s);
    assert exists m :: IsLeast(less, s, m);
    var m :| m in s && forall x <- s :: x == m || less(m, x);
    m
  }

  // The iteration order of a `BTreeSet`.
  function Sorted<T(==, !new)>(less: (T, T) -> bool, s: set<T>): (r: seq<T>)
    requires StrictOrder(less)
    ensures |r| == |s|
    ensures forall x :: x in r <==> x in s
    ensures Ascending(less, r)
  {
    if s == {} then []
    else
      var m := Least(less, s);
      var rest := Sorted(less, s - {m});
      assert forall i :: 0 <= i < |rest| ==> rest[i] in s - {m};
      [m] + rest
  }
}
