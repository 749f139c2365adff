// The read-through cache (mypalace/cache/client.py, mypalace/cache/decorator.py): keys, glob
// invalidation, and the cached call.
module ReadCache {
  import opened Prelude

  // A decoded cache value; JSON null reads as no value at all.
  datatype Json<+V> = Null | Value(value: V)

  const PREFIX := "palace:cache:"

  // The part of a key that names its tenant and namespace.
  function Scope(tenant: string, namespace: string): string {
    tenant + ":" + (namespace + ":")
  }

  function DeriveKey(tenant: string, namespace: string, digest: string): string {
    PREFIX + (Scope(tenant, namespace) + digest)
  }

  function PatternFor(tenant: string, namespace: string): string {
    PREFIX + (Scope(tenant, namespace) + "*")
  }

  // Redis glob matching: any run, any character, escape, or the character itself.
  predicate Glob(p: string, s: string)
    decreases |p|, |s|
  {
    if p == "" then s == ""
    else if p[0] == '*' then Glob(p[1..], s) || (s != "" && Glob(p, s[1..]))
    else if s == "" then false
    else if p[0] == '?' then Glob(p[1..], s[1..])
    else if p[0] == '\\' && |p| > 1 then p[1] == s[0] && Glob(p[2..], s[1..])
    else p[0] == s[0] && Glob(p[1..], s[1..])
  }

  const SPECIAL := "*?\\[]"

  // No character of the text means anything to the matcher.
  predicate Plain(s: string) {
    forall c | c in s :: c !in SPECIAL
  }

  predicate TenantChar(c: char) { 'a' <= c <= 'z' || '0' <= c <= '9' || c == '_' }

  predicate ValidTenant(t: string) {
    1 <= |t| <= 32 && forall c | c in t :: TenantChar(c)
  }

  predicate Segment(s: string) { Plain(s) && ':' !in s }

  lemma ValidTenantIsSegment(t: string)
    requires ValidTenant(t)
    ensures Segment(t)
  {
  }

  lemma {:induction false} StarMatchesAll(s: string)
    ensures Glob("*", s)
  {
    if s == "" {
      assert Glob("*"[1..], s);
    } else {
      StarMatchesAll(s[1..]);
    }
  }

  // A plain text followed by a star matches exactly what starts with the text.
  lemma {:induction false} GlobIsPrefix(p: string, s: string)
    requires Plain(p)
    ensures Glob(p + "*", s) <==> p <= s
    decreases |p|
  {
    if p == "" {
      assert p + "*" == "*";
      StarMatchesAll(s);
    } else {
      assert (p + "*")[1..] == p[1..] + "*";
      assert p[0] !in SPECIAL;
      if s != "" {
        GlobIsPrefix(p[1..], s[1..]);
        assert p == [p[0]] + p[1..] && s == [s[0]] + s[1..];
      }
    }
  }

  lemma CutPrefix(p: string, a: string, b: string)
    requires p + a == p + b
    ensures a == b
  {
    assert a == (p + a)[|p|..] && b == (p + b)[|p|..];
  }

  lemma ScopeOfPrefix(tenant: string, namespace: string, tenant': string, namespace': string, digest: string,
                      rest: string)
    requires ':' !in tenant && ':' !in namespace && ':' !in tenant' && ':' !in namespace'
    requires DeriveKey(tenant', namespace', digest) == PREFIX + Scope(tenant, namespace) + rest
    ensures tenant == tenant' && namespace == namespace'
  {
    var r, r' := namespace + ":" + rest, namespace' + ":" + digest;
    assert PREFIX + Scope(tenant, namespace) + rest == PREFIX + (tenant + ":" + r);
    assert DeriveKey(tenant', namespace', digest) == PREFIX + (tenant' + ":" + r');
    CutPrefix(PREFIX, tenant + ":" + r, tenant' + ":" + r');
    JoinLeft(tenant, r, tenant', r', ':');
    JoinLeft(namespace, rest, namespace', digest, ':');
  }

  // Invalidating one tenant's namespace hits exactly the keys derived for that pair.
  lemma InvalidationIsExact(tenant: string, namespace: string, tenant': string, namespace': string, digest: string)
    requires Segment(tenant) && Segment(namespace) && ':' !in tenant' && ':' !in namespace'
    ensures Glob(PatternFor(tenant, namespace), DeriveKey(tenant', namespace', digest))
      <==> tenant == tenant' && namespace == namespace'
  {
    var p, key := PREFIX + Scope(tenant, namespace), DeriveKey(tenant', namespace', digest);
    assert PatternFor(tenant, namespace) == p + "*";
    assert forall c | c in p :: c in PREFIX || c in tenant || c == ':' || c in namespace;
    GlobIsPrefix(p, key);
    if p <= key {
      ScopeOfPrefix(tenant, namespace, tenant', namespace', digest, key[|p|..]);
    }
    if tenant == tenant' && namespace == namespace' {
      assert key == p + digest;
    }
  }

  // Keys of different calls differ, as long as their digests do.
  lemma KeysAreDistinct(tenant: string, namespace: string, digest: string, tenant': string, namespace': string,
                        digest': string)
    requires ':' !in tenant && ':' !in namespace && ':' !in tenant' && ':' !in namespace'
    ensures DeriveKey(tenant, namespace, digest) == DeriveKey(tenant', namespace', digest')
      <==> tenant == tenant' && namespace == namespace' && digest == digest'
    ensures DeriveKey(tenant, namespace, digest) == "palace:cache:" + tenant + ":" + namespace + ":" + digest
  {
    if DeriveKey(tenant, namespace, digest) == DeriveKey(tenant', namespace', digest') {
      assert DeriveKey(tenant, namespace, digest) == PREFIX + Scope(tenant, namespace) + digest;
      ScopeOfPrefix(tenant, namespace, tenant', namespace', digest', digest);
      CutPrefix(PREFIX, Scope(tenant, namespace) + digest, Scope(tenant, namespace) + digest');
      CutPrefix(Scope(tenant, namespace), digest, digest');
    }
  }

  lemma {:induction false} StarSkips(p: string, skipped: string, s: string)
    requires Glob(p, s)
    ensures Glob("*" + p, skipped + s)
    decreases |skipped|
  {
    assert ("*" + p)[1..] == p;
    if skipped == "" {
      assert skipped + s == s;
    } else {
      StarSkips(p, skipped[1..], s);
      assert (skipped + s)[1..] == skipped[1..] + s;
    }
  }

  lemma {:induction false} LiteralHead(head: string, p: string, s: string)
    requires Plain(head) && Glob(p, s)
    ensures Glob(head + p, head + s)
    decreases |head|
  {
    if head == "" {
      assert head + p == p && head + s == s;
    } else {
      LiteralHead(head[1..], p, s);
      assert (head + p)[1..] == head[1..] + p && (head + s)[1..] == head[1..] + s;
      assert head[0] !in SPECIAL;
    }
  }

  // A tenant id with a glob character in it would take other tenants' entries along, which is
  // why ids are validated.
  lemma UnvalidatedTenantWipesOthers(tenant: string, digest: string)
    requires ':' !in tenant
    ensures !ValidTenant("*")
    ensures Glob(PatternFor("*", "memories_search"), DeriveKey(tenant, "memories_search", digest))
  {
    var ns := "memories_search";
    var tail := ":" + (ns + ":");
    assert "*"[0] == '*' && !TenantChar('*');
    assert PatternFor("*", ns) == PREFIX + ("*" + (tail + "*"));
    assert DeriveKey(tenant, ns, digest) == PREFIX + (tenant + (tail + digest));
    GlobIsPrefix(tail, tail + digest);
    StarSkips(tail + "*", tenant, tail + digest);
    LiteralHead(PREFIX, "*" + (tail + "*"), tenant + (tail + digest));
  }

  function Invalidated<V>(store: map<string, Json<V>>, pattern: string): map<string, Json<V>> {
    map k | k in store && !Glob(pattern, k) :: store[k]
  }

  // What `get` makes of a key: a missing key and a stored null look the same.
  function Lookup<V>(store: map<string, Json<V>>, key: string): Json<V> {
    if key in store then store[key] else Null
  }

  // How Redis takes a read: it answers, it fails, or what it holds does not decode.
  datatype Reply = Up | Down | Garbled

  // What `get` makes of a key under such a reply.
  function Fetched<V>(store: map<string, Json<V>>, key: string, reply: Reply): Json<V> {
    if reply.Up? then Lookup(store, key) else Null
  }

  // The value a read-through call returns, and the store it leaves.
  function CallResult<V>(store: map<string, Json<V>>, key: string, loaded: Json<V>, reply: Reply): Json<V> {
    if Fetched(store, key, reply).Value? then Fetched(store, key, reply) else loaded
  }

  function AfterCall<V>(store: map<string, Json<V>>, key: string, loaded: Json<V>, reply: Reply, up: bool)
    : map<string, Json<V>>
  {
    if Fetched(store, key, reply).Value? || !up then store else store[key := loaded]
  }

  // A call whose answer could be stored decides what the next one returns, whatever that would load,
  // unless it returned no value; and it leaves all other keys alone.
  lemma NextCallIsServed<V>(store: map<string, Json<V>>, key: string, loaded: Json<V>, reply: Reply, later: Json<V>,
                            other: string)
    ensures var returned := if reply == Up && key in store && store[key].Value? then store[key] else loaded;
      var after := AfterCall(store, key, loaded, reply, true);
      && CallResult(store, key, loaded, reply) == returned
      && CallResult(after, key, later, Up) == (if returned.Value? then returned else later)
      && AfterCall(store, key, loaded, reply, false) == store
      && (other != key ==> (other in after <==> other in store) && (other in store ==> after[other] == store[other]))
  {
  }

  // How many of n keys are deleted when the loop fails before key number `failsAt`.
  function Reached(n: nat, failsAt: Option<nat>): nat {
    if failsAt.Some? && failsAt.value < n then failsAt.value else n
  }

  class Cache<V(==)> {
    var store: map<string, Json<V>> // Redis
    var hits: nat
    var misses: nat
    const enabled: bool

    constructor (enabled: bool)
      ensures store == map[] && hits == 0 && misses == 0 && this.enabled == enabled
    {
      this.enabled := enabled;
      store, hits, misses := map[], 0, 0;
    }

    // A failure counts as a miss; a value that does not decode as a hit and a miss.
    method Get(key: string, reply: Reply) returns (value: Json<V>)
      modifies this`hits, this`misses
      ensures value == if enabled && reply == Up && key in store then store[key] else Null
      ensures hits == old(hits) + (if enabled && !reply.Down? && key in store then 1 else 0)
      ensures misses == old(misses) + (if enabled && (!reply.Up? || key !in store) then 1 else 0)
    {
      if !enabled {
        return Null;
      }
      if reply.Down? || key !in store {
        misses := misses + 1;
        return Null;
      }
      hits := hits + 1;
      if reply.Garbled? {
        misses := misses + 1;
        return Null;
      }
      return store[key];
    }

    method Set(key: string, value: Json<V>, up: bool)
      modifies this`store
      ensures store == if enabled && up then old(store)[key := value] else old(store)
    {
      if enabled && up {
        store := store[key := value];
      }
    }

    // `scanned` is what SCAN yields: every matching key at least once. A failure on the way
    // leaves the deletions made before it, and reports none.
    method InvalidatePattern(pattern: string, scanned: seq<string>, failsAt: Option<nat>) returns (count: nat)
      requires Elems(scanned) == set k | k in store && Glob(pattern, k)
      modifies this`store
      ensures store == if enabled then old(store) - Elems(scanned[..Reached(|scanned|, failsAt)]) else old(store)
      ensures enabled && failsAt.None? ==> store == Invalidated(old(store), pattern)
      ensures forall k | k in old(store) && !Glob(pattern, k) :: k in store && store[k] == old(store)[k]
      ensures count == if enabled && failsAt.None? then |scanned| else 0
    {
      count := 0;
      if !enabled {
        return;
      }
      assert old(store) - Elems(scanned[..0]) == old(store);
      for i := 0 to Reached(|scanned|, failsAt)
        invariant count == i
        invariant store == old(store) - Elems(scanned[..i])
      {
        assert scanned[..i + 1] == scanned[..i] + [scanned[i]];
        assert Elems(scanned[..i + 1]) == Elems(scanned[..i]) + {scanned[i]};
        store := store - {scanned[i]};
        count := count + 1;
      }
      forall k | k in scanned[..Reached(|scanned|, failsAt)] ensures Glob(pattern, k) {
        assert k in scanned && k in Elems(scanned);
      }
      if failsAt.Some? {
        return 0;
      }
      assert scanned[..|scanned|] == scanned;
      assert forall k | k in store :: !Glob(pattern, k) by {
        assert forall k | k in store :: k !in Elems(scanned);
      }
    }

    method InvalidateTenantNamespace(tenant: string, namespace: string, scanned: seq<string>, failsAt: Option<nat>)
      returns (count: nat)
      requires Elems(scanned) == set k | k in store && Glob(PatternFor(tenant, namespace), k)
      modifies this`store
      ensures store == if enabled then old(store) - Elems(scanned[..Reached(|scanned|, failsAt)]) else old(store)
      ensures enabled && failsAt.None? ==> store == Invalidated(old(store), PatternFor(tenant, namespace))
      ensures count == if enabled && failsAt.None? then |scanned| else 0
    {
      count := InvalidatePattern(PatternFor(tenant, namespace), scanned, failsAt);
    }

    // `loaded` is what the loader would return; `called` tells whether it was needed. The read
    // and the write may fail separately.
    method CachedCall(tenant: string, namespace: string, digest: string, loaded: Json<V>, reply: Reply, up: bool)
      returns (value: Json<V>, called: bool)
      modifies this
      ensures var key := DeriveKey(tenant, namespace, digest);
        if enabled then
          value == CallResult(old(store), key, loaded, reply) && store == AfterCall(old(store), key, loaded, reply, up)
          && (called <==> Fetched(old(store), key, reply).Null?)
        else value == loaded && store == old(store) && called
    {
      var key := DeriveKey(tenant, namespace, digest);
      value := Get(key, reply);
      called := value.Null?;
      if called {
        value := loaded;
        Set(key, loaded, up);
      }
    }
  }
}
