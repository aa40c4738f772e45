// A few laws of map union, restriction, and removal.
module Maps {

  function Restrict<K, V>(m: map<K, V>, keys: seq<K>): map<K, V> {
    map key <- m | key in keys :: m[key]
  }

  lemma MinusPlus<K, V>(f: map<K, V>, g: map<K, V>, s: set<K>)
    requires s !! g.Keys
    ensures (f + g) - s == (f - s) + g
  {
    var a, b := (f + g) - s, (f - s) + g;
    assert a.Keys == b.Keys;
  }

  lemma RestrictStep<K, V>(f: map<K, V>, g: map<K, V>, init: seq<K>, key: K)
    requires key in g
    ensures (f + Restrict(g, init))[key := g[key]] == f + Restrict(g, init + [key])
  {
    var a, b := (f + Restrict(g, init))[key := g[key]], f + Restrict(g, init + [key]);
    assert a.Keys == b.Keys;
  }

  lemma RestrictAll<K, V>(g: map<K, V>, keys: seq<K>)
    requires forall key :: key in g ==> key in keys
    ensures Restrict(g, keys) == g
  {
  }

  lemma RestrictNone<K, V>(f: map<K, V>, g: map<K, V>)
    ensures f + Restrict(g, []) == f
  {
  }

  lemma MinusStep<K, V>(f: map<K, V>, s: set<K>, key: K)
    ensures (f - s) - {key} == f - (s + {key})
  {
  }
}
