// The (model, text) cache in front of an embedding provider (mypalace/embeddings.py).
module EmbeddingCache {
  import opened Prelude

  // What Redis does during one call: keys it drops before each read, reads and writes it fails.
  datatype Redis = Redis(evicted: nat -> set<string>, getFails: nat -> bool, setFails: nat -> bool)

  // No two of the texts share a key.
  ghost predicate Distinguishes(key: string -> string, texts: set<string>) {
    forall a, b | a in texts && b in texts :: key(a) == key(b) ==> a == b
  }

  function EmbedAll(inner: string -> Vec, texts: seq<string>): seq<Vec> {
    seq(|texts|, i requires 0 <= i < |texts| => inner(texts[i]))
  }

  // The cache holds nothing but what the provider says of one of the texts.
  ghost predicate Coherent(inner: string -> Vec, key: string -> string, cache: map<string, Vec>, texts: set<string>) {
    forall k | k in cache :: exists text :: text in texts && key(text) == k && cache[k] == inner(text)
  }

  lemma MoreTexts(inner: string -> Vec, key: string -> string, cache: map<string, Vec>, texts: set<string>,
                  more: set<string>)
    requires Coherent(inner, key, cache, texts) && texts <= more
    ensures Coherent(inner, key, cache, more)
  {
  }

  lemma OneMoreEntry(inner: string -> Vec, key: string -> string, cache: map<string, Vec>, texts: set<string>,
                     text: string)
    requires Coherent(inner, key, cache, texts) && text in texts
    ensures Coherent(inner, key, cache[key(text) := inner(text)], texts)
  {
    var after := cache[key(text) := inner(text)];
    forall k | k in after ensures exists t :: t in texts && key(t) == k && after[k] == inner(t) {
      if k != key(text) {
        var t :| t in texts && key(t) == k && cache[k] == inner(t);
      }
    }
  }

  function Present(results: seq<Option<Vec>>): seq<Vec> {
    if results == [] then [] else
      (if results[0].Some? then [results[0].value] else []) + Present(results[1..])
  }

  lemma {:induction false} AllPresent(inner: string -> Vec, texts: seq<string>, results: seq<Option<Vec>>)
    requires |results| == |texts| && forall i | 0 <= i < |texts| :: results[i] == Some(inner(texts[i]))
    ensures Present(results) == EmbedAll(inner, texts)
  {
    if texts == [] {
    } else {
      AllPresent(inner, texts[1..], results[1..]);
    }
  }

  // The texts a cache does not hold, repeats included.
  function Uncached(key: string -> string, cache: map<string, Vec>, texts: seq<string>): seq<string> {
    if texts == [] then [] else
      var last := texts[|texts| - 1];
      Uncached(key, cache, texts[..|texts| - 1]) + (if key(last) in cache then [] else [last])
  }

  lemma UncachedNone(key: string -> string, cache: map<string, Vec>)
    ensures Uncached(key, cache, []) == []
  {
  }

  lemma UncachedSnoc(key: string -> string, cache: map<string, Vec>, texts: seq<string>, i: nat)
    requires i < |texts|
    ensures Uncached(key, cache, texts[..i + 1])
         == Uncached(key, cache, texts[..i]) + if key(texts[i]) in cache then [] else [texts[i]]
  {
    assert texts[..i + 1][..i] == texts[..i];
  }

  // Redis neither drops a key nor fails a command.
  ghost predicate Calm(redis: Redis) {
    forall i: nat :: redis.evicted(i) == {} && !redis.getFails(i) && !redis.setFails(i)
  }

  class CachedEmbedder {
    const inner: string -> Vec // the wrapped provider, one text at a time
    const key: string -> string // "palace:embed:" and the digest of model and text
    const enabled: bool
    var cache: map<string, Vec>
    var hits: nat
    var misses: nat
    ghost var seen: set<string> // the texts embedded so far, those of the present call included

    ghost predicate Valid()
      reads this
    {
      Distinguishes(key, seen) && Coherent(inner, key, cache, seen)
    }

    constructor (inner: string -> Vec, key: string -> string, enabled: bool)
      ensures Valid() && cache == map[] && hits == 0 && misses == 0 && seen == {}
      ensures this.inner == inner && this.key == key && this.enabled == enabled
    {
      this.inner, this.key, this.enabled := inner, key, enabled;
      cache, hits, misses, seen := map[], 0, 0, {};
    }

    // One cache read, counted as a hit or a miss.
    method Get(text: string, redis: Redis, i: nat) returns (found: Option<Vec>)
      requires Valid() && text in seen
      modifies this`cache, this`hits, this`misses
      ensures Valid()
      ensures found.Some? ==> found.value == inner(text) && hits == old(hits) + 1 && misses == old(misses)
      ensures found.None? ==> hits == old(hits) && misses == old(misses) + 1
      ensures Calm(redis) ==> cache == old(cache) && (found.Some? <==> key(text) in cache)
    {
      cache := cache - redis.evicted(i);
      if !redis.getFails(i) && key(text) in cache {
        hits := hits + 1;
        return Some(cache[key(text)]);
      }
      misses := misses + 1;
      return None;
    }

    // The texts found (with their vectors) and the indices missed, in order.
    method Look(texts: seq<string>, redis: Redis)
      returns (results: seq<Option<Vec>>, missed: seq<nat>, asked: seq<string>)
      requires Valid() && forall text | text in texts :: text in seen
      modifies this`cache, this`hits, this`misses
      ensures Valid() && |results| == |texts|
      ensures hits + misses == old(hits) + old(misses) + |texts| && |missed| == misses - old(misses)
      ensures |asked| == |missed| && forall n | 0 <= n < |missed| :: missed[n] < |texts| && asked[n] == texts[missed[n]]
      ensures forall i | 0 <= i < |texts| :: i in missed || results[i] == Some(inner(texts[i]))
      ensures Calm(redis) ==> cache == old(cache) && asked == Uncached(key, cache, texts)
      ensures Calm(redis) ==> forall i | 0 <= i < |texts| :: i in missed || key(texts[i]) in cache
    {
      hide Coherent, Distinguishes, Calm, Uncached;
      UncachedNone(key, cache);
      results, missed, asked := [], [], [];
      for i := 0 to |texts|
        invariant Valid() && |results| == i
        invariant hits + misses == old(hits) + old(misses) + i && |missed| == misses - old(misses)
        invariant |asked| == |missed| && forall n | 0 <= n < |missed| :: missed[n] < i && asked[n] == texts[missed[n]]
        invariant forall j | 0 <= j < i :: j in missed || results[j] == Some(inner(texts[j]))
        invariant Calm(redis) ==> cache == old(cache) && asked == Uncached(key, cache, texts[..i])
        invariant Calm(redis) ==> forall j | 0 <= j < i :: j in missed || key(texts[j]) in cache
      {
        UncachedSnoc(key, cache, texts, i);
        var found := Get(texts[i], redis, i);
        results := results + [found];
        if found.None? {
          missed, asked := missed + [i], asked + [texts[i]];
        }
      }
      assert texts[..|texts|] == texts;
    }

    // The provider's answers for the misses, put in place and written back.
    method Fill(texts: seq<string>, redis: Redis, partial: seq<Option<Vec>>, missed: seq<nat>, vectors: seq<Vec>)
      returns (results: seq<Option<Vec>>)
      requires Valid() && |partial| == |texts| && |vectors| == |missed| && forall text | text in texts :: text in seen
      requires forall n | 0 <= n < |missed| :: missed[n] < |texts| && vectors[n] == inner(texts[missed[n]])
      requires forall i | 0 <= i < |texts| :: i in missed || partial[i] == Some(inner(texts[i]))
      modifies this`cache
      ensures Valid() && |results| == |texts|
      ensures forall i | 0 <= i < |texts| :: results[i] == Some(inner(texts[i]))
      ensures Calm(redis) ==> old(cache).Keys <= cache.Keys
      ensures Calm(redis) ==> forall n | 0 <= n < |missed| :: key(texts[missed[n]]) in cache
    {
      results := partial;
      for n := 0 to |missed|
        invariant Valid() && |results| == |texts|
        invariant forall i | 0 <= i < |texts| :: i in missed[n..] || results[i] == Some(inner(texts[i]))
        invariant Calm(redis) ==> old(cache).Keys <= cache.Keys
        invariant Calm(redis) ==> forall j | 0 <= j < n :: key(texts[missed[j]]) in cache
      {
        var i := missed[n];
        assert missed[n..] == [i] + missed[n + 1..];
        results := results[i := Some(vectors[n])];
        if !redis.setFails(n) {
          OneMoreEntry(inner, key, cache, seen, texts[i]);
          cache := cache[key(texts[i]) := vectors[n]];
        }
      }
    }

    // Whatever Redis drops or fails, the answer is the provider's, in order, repeats included;
    // every text is counted once; only the misses are sent on (`asked`), and when Redis is calm
    // those are exactly the texts not cached before, and all texts are cached after. Only texts
    // embedded before or now must have keys of their own.
    method Embed(texts: seq<string>, redis: Redis) returns (vectors: seq<Vec>, asked: seq<string>)
      requires Valid() && (enabled ==> Distinguishes(key, seen + Elems(texts)))
      modifies this`cache, this`hits, this`misses, this`seen
      ensures Valid() && seen == if enabled then old(seen) + Elems(texts) else old(seen)
      ensures |vectors| == |texts| && forall i | 0 <= i < |texts| :: vectors[i] == inner(texts[i])
      ensures !enabled ==> cache == old(cache) && hits == old(hits) && misses == old(misses) && asked == texts
      ensures enabled ==> hits + misses == old(hits) + old(misses) + |texts| && |asked| == misses - old(misses)
      ensures enabled && Calm(redis) ==>
        asked == Uncached(key, old(cache), texts) && forall i | 0 <= i < |texts| :: key(texts[i]) in cache
    {
      if !enabled {
        return EmbedAll(inner, texts), texts;
      }
      MoreTexts(inner, key, cache, seen, seen + Elems(texts));
      seen := seen + Elems(texts);
      assert forall text | text in texts :: text in Elems(texts);
      var results, missed;
      results, missed, asked := Look(texts, redis);
      if missed != [] {
        results := Fill(texts, redis, results, missed, EmbedAll(inner, asked));
      }
      AllPresent(inner, texts, results);
      vectors := Present(results);
    }
  }

  // Embedding the same texts again asks the provider for nothing.
  lemma {:induction false} RepeatIsFree(key: string -> string, cache: map<string, Vec>, texts: seq<string>)
    ensures Uncached(key, cache, texts) == [] <==> forall i | 0 <= i < |texts| :: key(texts[i]) in cache
  {
    if texts == [] {
    } else {
      RepeatIsFree(key, cache, texts[..|texts| - 1]);
    }
  }

  lemma {:induction false} UncachedMembers(key: string -> string, cache: map<string, Vec>, texts: seq<string>,
                                           text: string)
    ensures text in Uncached(key, cache, texts) <==> text in texts && key(text) !in cache
  {
    if texts == [] {
    } else {
      var rest, last := texts[..|texts| - 1], texts[|texts| - 1];
      UncachedMembers(key, cache, rest, text);
      assert texts == rest + [last];
    }
  }

  // What is sent on: every text that is not cached, as often as it occurs.
  lemma {:induction false} MissesAreSentOn(key: string -> string, cache: map<string, Vec>, texts: seq<string>,
                                           text: string)
    ensures multiset(Uncached(key, cache, texts))[text] == if key(text) in cache then 0 else multiset(texts)[text]
  {
    if texts == [] {
    } else {
      var rest, last := texts[..|texts| - 1], texts[|texts| - 1];
      assert texts == rest + [last];
      MissesAreSentOn(key, cache, rest, text);
    }
  }

  // And in the order of the texts.
  lemma {:induction false} MissesKeepTheirOrder(key: string -> string, cache: map<string, Vec>, texts: seq<string>,
                                                text: string, other: string)
    ensures Precedes(Uncached(key, cache, texts), text, other)
      <==> key(text) !in cache && key(other) !in cache && Precedes(texts, text, other)
  {
    hide Precedes;
    if texts == [] {
      NothingPrecedes(text, other);
    } else {
      var rest, last := texts[..|texts| - 1], texts[|texts| - 1];
      var asked := Uncached(key, cache, rest);
      assert texts == rest + [last];
      assert Uncached(key, cache, texts) == if key(last) in cache then asked else asked + [last];
      MissesKeepTheirOrder(key, cache, rest, text, other);
      UncachedMembers(key, cache, rest, text);
      PrecedesLast(rest, last, text, other);
      PrecedesLast(asked, last, text, other);
    }
  }
}
