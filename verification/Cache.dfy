// The write-once, content-addressed artifact cache and its advisory index.
module Cache {
  import opened Text
  import opened Identity

  datatype CacheError = Corrupt | TooLarge | Conflict | DigestMismatch | Io

  type IndexKey = (Namespace, Provenance)

  // The cache's contents as a value. `entries` may hold anything: a backend can lose or damage what
  // it stores, and every read verifies.
  datatype Contents = Contents(entries: map<CacheKey, Bytes>, index: map<IndexKey, Digest>)

  const EMPTY := Contents(map[], map[])

  function LookupBounded(cache: Contents, key: CacheKey, maxBytes: nat): (r: Result<Option<Bytes>, CacheError>)
    ensures r.Ok? && r.value.Some? ==> Of(r.value.value) == key.content && |r.value.value| <= maxBytes
    ensures r == Ok(None) <==> key !in cache.entries
    ensures key in cache.entries && |cache.entries[key]| > maxBytes <==> r == Err(TooLarge)
    ensures r == Err(Corrupt) ==> Of(cache.entries[key]) != key.content
  {
    if key !in cache.entries then Ok(None)
    else if |cache.entries[key]| > maxBytes then Err(TooLarge)
    else if Of(cache.entries[key]) != key.content then Err(Corrupt)
    else Ok(Some(cache.entries[key]))
  }

  function IndexedKey(cache: Contents, namespace: Namespace, provenance: Provenance): Option<CacheKey> {
    if (namespace, provenance) in cache.index
    then Some(CacheKey(namespace, provenance, cache.index[(namespace, provenance)]))
    else None
  }

  // `ArtifactCache::publish` over the memory backend's `publish_once`.
  function PublishOnce(cache: Contents, key: CacheKey, bytes: Bytes): (r: Result<Contents, CacheError>)
    ensures r.Ok? ==> key in r.value.entries && r.value.entries[key] == bytes && Of(bytes) == key.content
    ensures r.Ok? ==> r.value.index == cache.index
    ensures r.Ok? ==> forall k <- cache.entries :: k in r.value.entries && r.value.entries[k] == cache.entries[k]
    ensures r == Err(Conflict) <==> key in cache.entries && cache.entries[key] != bytes
    ensures Of(bytes) == key.content ==> r.Ok? || r == Err(Conflict)
    ensures Of(bytes) != key.content ==> r == Err(Conflict) || r == Err(DigestMismatch)
  {
    if Of(bytes) != key.content then
      if key in cache.entries && cache.entries[key] != bytes then Err(Conflict) else Err(DigestMismatch)
    else if key in cache.entries then
      if cache.entries[key] == bytes then Ok(cache) else Err(Conflict)
    else Ok(cache.(entries := cache.entries[key := bytes]))
  }

  function RecordIndex(cache: Contents, key: CacheKey): Contents {
    cache.(index := cache.index[(key.namespace, key.provenance) := key.content])
  }

  // The index names the last key recorded for a namespace and provenance.
  lemma IndexRemembers(cache: Contents, key: CacheKey, namespace: Namespace, provenance: Provenance)
    ensures IndexedKey(RecordIndex(cache, key), namespace, provenance) ==
      if namespace == key.namespace && provenance == key.provenance then Some(key)
      else IndexedKey(cache, namespace, provenance)
    ensures RecordIndex(cache, key).entries == cache.entries && IndexedKey(EMPTY, namespace, provenance) == None
  {
  }

  // ---- Persistence as a list of backend operations ----

  datatype Op = PublishArtifact(key: CacheKey, bytes: Bytes) | RecordCurrent(key: CacheKey)

  function Perform(cache: Contents, op: Op): Result<Contents, CacheError> {
    match op
    case PublishArtifact(key, bytes) => PublishOnce(cache, key, bytes)
    case RecordCurrent(key) => Ok(RecordIndex(cache, key))
  }

  // Run `ops` in order. `budget` is how many operations the host lets through before one fails; a
  // crash after `n` operations and a failure of the next one leave the same cache.
  function Run(cache: Contents, ops: seq<Op>, budget: nat): (r: (Contents, Option<CacheError>))
    decreases |ops|
  {
    if ops == [] then (cache, None)
    else if budget == 0 then (cache, Some(Io))
    else
      match Perform(cache, ops[0])
      case Err(error) => (cache, Some(error))
      case Ok(next) => Run(next, ops[1..], budget - 1)
  }

  // What is published stays published, byte for byte.
  ghost predicate Keeps(before: Contents, after: Contents) {
    forall key <- before.entries :: key in after.entries && after.entries[key] == before.entries[key]
  }

  lemma {:induction false} RunKeeps(cache: Contents, ops: seq<Op>, budget: nat)
    ensures Keeps(cache, Run(cache, ops, budget).0)
    decreases |ops|
  {
    if ops != [] && budget > 0 {
      var step := Perform(cache, ops[0]);
      if step.Ok? {
        RunKeeps(step.value, ops[1..], budget - 1);
      }
    }
  }

  // Nothing else is stored where these bytes belong.
  predicate Unspoilt(cache: Contents, key: CacheKey, bytes: Bytes) {
    key in cache.entries ==> cache.entries[key] == bytes
  }

  predicate Publishable(cache: Contents, op: Op) {
    op.PublishArtifact? ==> Of(op.bytes) == op.key.content && Unspoilt(cache, op.key, op.bytes)
  }

  lemma PublishableStill(cache: Contents, next: Contents, first: Op, op: Op)
    requires Publishable(cache, first) && Perform(cache, first) == Ok(next)
    ensures Publishable(next, op) <==> Publishable(cache, op)
  {
  }

  // A run ends without an error exactly when it may take as long as it needs, and everything it
  // publishes is under its own digest, with nothing else there.
  lemma {:induction false} RunSucceedsExactly(cache: Contents, ops: seq<Op>, budget: nat)
    ensures Run(cache, ops, budget).1 == None <==> |ops| <= budget && forall op <- ops :: Publishable(cache, op)
    decreases |ops|
  {
    if ops != [] && budget > 0 {
      var first, rest := ops[0], ops[1..];
      assert ops == [first] + rest && first in ops;
      if Publishable(cache, first) {
        var next := Perform(cache, first).value;
        RunSucceedsExactly(next, rest, budget - 1);
        forall op <- rest ensures Publishable(next, op) <==> Publishable(cache, op) {
          PublishableStill(cache, next, first, op);
        }
      }
    }
  }

  // A run that ends without an error has published every artifact it was asked to.
  lemma {:induction false} RunPublishes(cache: Contents, ops: seq<Op>, budget: nat, i: nat)
    requires Run(cache, ops, budget).1 == None
    requires i < |ops| && ops[i].PublishArtifact?
    ensures var after := Run(cache, ops, budget).0;
      && ops[i].key in after.entries && after.entries[ops[i].key] == ops[i].bytes
      && Of(ops[i].bytes) == ops[i].key.content
    decreases |ops|
  {
    var next := Perform(cache, ops[0]).value;
    if i == 0 {
      RunKeeps(next, ops[1..], budget - 1);
    } else {
      RunPublishes(next, ops[1..], budget - 1, i - 1);
    }
  }

  // ---- The cache object ----

  class ArtifactCache {
    var entries: map<CacheKey, Bytes>
    var index: map<IndexKey, Digest>

    function Value(): Contents
      reads this
    {
      Contents(entries, index)
    }

    constructor ()
      ensures Value() == EMPTY
    {
      entries, index := map[], map[];
    }

    method PublishArtifactBytes(key: CacheKey, bytes: Bytes) returns (error: Option<CacheError>)
      modifies this
      ensures error == None ==> PublishOnce(old(Value()), key, bytes) == Ok(Value())
      ensures error.Some? ==> PublishOnce(old(Value()), key, bytes) == Err(error.value) && Value() == old(Value())
    {
      if Of(bytes) != key.content {
        error := Some(if key in entries && entries[key] != bytes then Conflict else DigestMismatch);
        return;
      }
      if key in entries {
        error := if entries[key] == bytes then None else Some(Conflict);
        return;
      }
      entries := entries[key := bytes];
      error := None;
    }

    method RecordCurrentKey(key: CacheKey)
      modifies this`index
      ensures Value() == RecordIndex(old(Value()), key)
    {
      index := index[(key.namespace, key.provenance) := key.content];
    }

    // Perform `ops` until one fails, or until the host stops after `budget` of them.
    method PerformAll(ops: seq<Op>, budget: nat) returns (error: Option<CacheError>)
      modifies this
      ensures (Value(), error) == Run(old(Value()), ops, budget)
    {
      ghost var start := Value();
      var i := 0;
      while i < |ops|
        invariant i <= |ops| && i <= budget
        invariant Run(start, ops, budget) == Run(Value(), ops[i..], budget - i)
      {
        if i == budget {
          return Some(Io);
        }
        assert ops[i..][0] == ops[i] && ops[i..][1..] == ops[i + 1..];
        match ops[i] {
          case PublishArtifact(key, bytes) =>
            error := PublishArtifactBytes(key, bytes);
            if error.Some? {
              return;
            }
          case RecordCurrent(key) =>
            RecordCurrentKey(key);
        }
        i := i + 1;
      }
      error := None;
    }
  }
}
