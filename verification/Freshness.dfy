// Cached memory search in front of many tenants' memories: writes bust, reads go through the
// cache, and every read shows the present (mypalace/api/memories.py with
// mypalace/cache and mypalace/memory_service.py).
module Freshness {
  import opened Prelude
  import opened MemoryModel
  import opened Ingestion
  import opened MemoryRuns
  import opened ReadCache

  // The key parts of one search request.
  datatype SearchParts = SearchParts(tenant: Tenant, query: string, user: Option<string>, agent: Option<string>,
                                     memoryType: Option<string>, limit: nat, minScore: real)

  datatype OutRow = OutRow(id: Id, content: string, memoryType: string, importance: real, score: real, createdAt: Time)

  // `digest` hashes the parts of a request; `round4` rounds a score for display.
  datatype Config = Config(env: Env, digest: SearchParts -> string, round4: real -> real)

  // ---- What the loader returns ----

  function HitsFor(c: Config, s: Space, p: SearchParts): seq<Hit> {
    c.env.index(s.points, Query(c.env.embed(p.query), p.limit, p.user, p.agent, p.memoryType, p.minScore, p.tenant))
  }

  function Shown(c: Config, s: Space, tenant: Tenant, hits: seq<Hit>, now: Time): seq<OutRow> {
    if hits == [] then [] else
      (if Readable(s, tenant, hits[0].id, now) then
         var m := s.rows[hits[0].id];
         [OutRow(hits[0].id, m.content, m.memoryType, m.importance, c.round4(hits[0].score), m.createdAt)]
       else []) + Shown(c, s, tenant, hits[1..], now)
  }

  function Load(c: Config, s: Space, p: SearchParts, now: Time): seq<OutRow> {
    Shown(c, s, p.tenant, HitsFor(c, s, p), now)
  }

  // All that is shown of a memory that was found with some similarity.
  predicate ShowsRow(c: Config, s: Space, row: OutRow, found: (Id, real)) {
    found.0 in s.rows &&
    var m := s.rows[found.0];
    && row.id == found.0 && row.score == c.round4(found.1) && row.content == m.content
    && row.memoryType == m.memoryType && row.importance == m.importance && row.createdAt == m.createdAt
  }

  // The loader shows the hydrated hits, in index order, and nothing else.
  lemma {:induction false} ShownIsHydrated(c: Config, s: Space, tenant: Tenant, hits: seq<Hit>, now: Time)
    ensures var rows, found := Shown(c, s, tenant, hits, now), Hydrate(s, tenant, hits, now);
      |rows| == |found| && forall i | 0 <= i < |rows| :: ShowsRow(c, s, rows[i], found[i])
  {
    if hits == [] {
    } else {
      ShownIsHydrated(c, s, tenant, hits[1..], now);
    }
  }

  // The loader shows what hydration finds for the request's hits: same memories, same order.
  lemma LoadShowsTheSearch(c: Config, s: Space, p: SearchParts, now: Time)
    ensures var q := Query(c.env.embed(p.query), p.limit, p.user, p.agent, p.memoryType, p.minScore, p.tenant);
      var rows, found := Load(c, s, p, now), Hydrate(s, p.tenant, c.env.index(s.points, q), now);
      |rows| == |found| && forall i | 0 <= i < |rows| :: ShowsRow(c, s, rows[i], found[i])
  {
    ShownIsHydrated(c, s, p.tenant, HitsFor(c, s, p), now);
  }

  // Two spaces a search cannot tell apart.
  ghost predicate SameReading(s: Space, s': Space) {
    && s.points == s'.points && s.rows.Keys == s'.rows.Keys
    && forall id | id in s.rows ::
      var m, m' := s.rows[id], s'.rows[id];
      m.tenant == m'.tenant && m.content == m'.content && m.memoryType == m'.memoryType
      && m.importance == m'.importance && m.createdAt == m'.createdAt && m.expiresAt == m'.expiresAt
  }

  lemma {:induction false} SameShown(c: Config, s: Space, s': Space, tenant: Tenant, hits: seq<Hit>, now: Time)
    requires SameReading(s, s')
    ensures Shown(c, s, tenant, hits, now) == Shown(c, s', tenant, hits, now)
  {
    if hits == [] {
    } else {
      SameShown(c, s, s', tenant, hits[1..], now);
    }
  }

  // Every memory among the hits that can be read now can still be read later.
  predicate AllSurvive(s: Space, tenant: Tenant, hits: seq<Hit>, now: Time, later: Time) {
    forall h | h in hits && Readable(s, tenant, h.id, now) :: Live(s.rows[h.id], later)
  }

  lemma {:induction false} ShownShrinks(c: Config, s: Space, tenant: Tenant, hits: seq<Hit>, now: Time, later: Time)
    requires now <= later
    ensures |Shown(c, s, tenant, hits, later)| <= |Shown(c, s, tenant, hits, now)|
    ensures Shown(c, s, tenant, hits, later) == Shown(c, s, tenant, hits, now)
      <==> AllSurvive(s, tenant, hits, now, later)
  {
    if hits == [] {
    } else {
      var rest := hits[1..];
      ShownShrinks(c, s, tenant, rest, now, later);
      assert hits == [hits[0]] + rest;
      var head := Readable(s, tenant, hits[0].id, now) ==> Live(s.rows[hits[0].id], later);
      assert AllSurvive(s, tenant, hits, now, later) <==> AllSurvive(s, tenant, rest, now, later) && head;
      var a, b := Shown(c, s, tenant, hits, now), Shown(c, s, tenant, hits, later);
      var a', b' := Shown(c, s, tenant, rest, now), Shown(c, s, tenant, rest, later);
      if Readable(s, tenant, hits[0].id, later) {
        assert a == [a[0]] + a' && b == [a[0]] + b';
        assert a[1..] == a' && b[1..] == b';
      } else if Readable(s, tenant, hits[0].id, now) {
        assert |a| == 1 + |a'| && |b| == |b'|;
      } else {
        assert a == a' && b == b';
      }
    }
  }

  // A cached search result is stale after a wait exactly when a memory in it has expired.
  lemma StaleIffExpired(c: Config, s: Space, p: SearchParts, now: Time, later: Time)
    requires now <= later
    ensures Load(c, s, p, later) == Load(c, s, p, now) <==> AllSurvive(s, p.tenant, HitsFor(c, s, p), now, later)
  {
    ShownShrinks(c, s, p.tenant, HitsFor(c, s, p), now, later);
  }

  // ---- Which writes bust ----

  predicate Busts(env: Env, s: Space, tenant: Tenant, op: Op)
    requires op.IngestOp? ==> |op.cs| == |op.ids|
  {
    match op
    case CreateOp(_, _, _) => true
    case UpdateOp(id, _, _) => Has(s, tenant, id)
    case DeleteOp(id) => Has(s, tenant, id)
    case DeleteForUserOp(_, _, _, _) => true
    case CleanupOp(_, order, _) => order != []
    case ReadOp(_, _) => false
    case SupersedeOp(oldId, _, _, _, _, _, _) => Has(s, tenant, oldId)
    case IngestOp(b, cs, ids) => WrittenIds(IngestAll(env, s, tenant, b, cs, ids).1) != []
  }

  lemma TouchSame(s: Space, ids: set<Id>, now: Time)
    ensures SameReading(s, Touch(s, ids, now))
  {
  }

  lemma {:induction false} IngestWithoutWrites(env: Env, s: Space, tenant: Tenant, b: Batch, cs: seq<Candidate>,
                                               ids: seq<Id>)
    requires |cs| == |ids| && WrittenIds(IngestAll(env, s, tenant, b, cs, ids).1) == []
    ensures SameReading(s, IngestAll(env, s, tenant, b, cs, ids).0)
  {
    hide Judge, Touch;
    if cs == [] {
    } else {
      var n := |cs| - 1;
      var fates := IngestAll(env, s, tenant, b, cs[..n], ids[..n]).1;
      var before := IngestAll(env, s, tenant, b, cs[..n], ids[..n]).0;
      var d := Judge(env, before, tenant, b, cs[n]);
      assert (fates + [FateOf(d, ids[n])])[..|fates|] == fates;
      IngestWithoutWrites(env, s, tenant, b, cs[..n], ids[..n]);
      if d.Redundant? {
        TouchSame(before, {d.existing}, b.now);
      }
    }
  }

  // A write that does not bust shows in no search.
  lemma QuietWritesDoNotShow(env: Env, s: Space, tenant: Tenant, op: Op)
    requires Enabled(s, tenant, op) && !Busts(env, s, tenant, op)
    ensures SameReading(s, Apply(env, s, tenant, op))
  {
    match op
    case ReadOp(ids, now) => TouchSame(s, ids, now);
    case IngestOp(b, cs, ids) => IngestWithoutWrites(env, s, tenant, b, cs, ids);
    case CleanupOp(_, order, batch) =>
      assert Elems(order) == {};
    case _ =>
  }

  // ---- Runs ----

  // `stored` tells when each entry was written.
  datatype World = World(spaces: map<Tenant, Space>, redis: map<string, Json<seq<OutRow>>>, now: Time,
                         stored: map<string, Time>)

  function Start(now: Time): World { World(map[], map[], now, map[]) }

  function SpaceOf(w: World, tenant: Tenant): Space {
    if tenant in w.spaces then w.spaces[tenant] else EMPTY
  }

  function SearchKey(c: Config, p: SearchParts): string {
    DeriveKey(p.tenant, "memories_search", c.digest(p))
  }

  function Bust<V>(redis: map<string, Json<V>>, tenant: Tenant): map<string, Json<V>> {
    Invalidated(Invalidated(redis, PatternFor(tenant, "memories_search")), PatternFor(tenant, "context_layered"))
  }

  lemma InvalidatedKeeps<V>(redis: map<string, Json<V>>, pattern: string, key: string)
    ensures key in Invalidated(redis, pattern) <==> key in redis && !Glob(pattern, key)
    ensures key in Invalidated(redis, pattern) ==> Invalidated(redis, pattern)[key] == redis[key]
  {
    hide Glob;
  }

  lemma NamespacesAreSegments()
    ensures Segment("memories_search") && Segment("context_layered")
  {
    hide Segment;
    ValidTenantIsSegment("memories_search");
    ValidTenantIsSegment("context_layered");
  }

  // Busting a tenant drops exactly its search answers and its layered contexts.
  lemma BustIsExact<V>(redis: map<string, Json<V>>, tenant: Tenant, other: string, namespace: string, digest: string)
    requires ValidTenant(tenant) && ':' !in other && ':' !in namespace
    ensures var key, after := DeriveKey(other, namespace, digest), Bust(redis, tenant);
      && (key in after <==>
            key in redis && !(other == tenant && (namespace == "memories_search" || namespace == "context_layered")))
      && (key in after ==> after[key] == redis[key])
  {
    ValidTenantIsSegment(tenant);
    NamespacesAreSegments();
    hide ValidTenant, Invalidated, DeriveKey, PatternFor, Glob, Segment;
    var searches, key := PatternFor(tenant, "memories_search"), DeriveKey(other, namespace, digest);
    InvalidationIsExact(tenant, "memories_search", other, namespace, digest);
    InvalidationIsExact(tenant, "context_layered", other, namespace, digest);
    InvalidatedKeeps(redis, searches, key);
    InvalidatedKeeps(Invalidated(redis, searches), PatternFor(tenant, "context_layered"), key);
  }

  datatype Step =
    | Write(tenant: Tenant, op: Op)
    | Search(parts: SearchParts, reply: Reply, up: bool) // Redis may fail the read, the write, or both
    | Tick(to: Time)
    | Forget(keys: set<string>) // evicted or timed out entries

  ghost predicate CanStep(w: World, st: Step) {
    match st
    case Write(t, op) => ValidTenant(t) && Enabled(SpaceOf(w, t), t, op)
    case Search(p, _, _) => ValidTenant(p.tenant)
    case Tick(to) => w.now <= to
    case Forget(_) => true
  }

  // What a search request answers, from the cache or else from the loader.
  function Answer(c: Config, w: World, p: SearchParts, reply: Reply): Json<seq<OutRow>> {
    CallResult(w.redis, SearchKey(c, p), Value(Load(c, SpaceOf(w, p.tenant), p, w.now)), reply)
  }

  // The ids a loader run reads, and so touches.
  function ReadIds(c: Config, s: Space, p: SearchParts, now: Time): set<Id> {
    set h | h in HitsFor(c, s, p) && Readable(s, p.tenant, h.id, now) :: h.id
  }

  function After(c: Config, w: World, st: Step): World
    requires st.Write? && st.op.IngestOp? ==> |st.op.cs| == |st.op.ids|
  {
    match st
    case Write(t, op) =>
      var s := SpaceOf(w, t);
      w.(spaces := w.spaces[t := Apply(c.env, s, t, op)],
         redis := if Busts(c.env, s, t, op) then Bust(w.redis, t) else w.redis)
    case Search(p, reply, up) =>
      var s, key := SpaceOf(w, p.tenant), SearchKey(c, p);
      var hit := Fetched(w.redis, key, reply).Value?;
      w.(redis := AfterCall(w.redis, key, Value(Load(c, s, p, w.now)), reply, up),
         stored := if hit || !up then w.stored else w.stored[key := w.now],
         spaces := if hit then w.spaces else w.spaces[p.tenant := Touch(s, ReadIds(c, s, p, w.now), w.now)])
    case Tick(to) => w.(now := to)
    case Forget(keys) => w.(redis := w.redis - keys)
  }

  // A search that the cache answers reads no memory; any other counts an access on every memory it
  // shows, and on no other.
  lemma MissesReadWhatTheyShow(c: Config, w: World, p: SearchParts, reply: Reply, up: bool, id: Id)
    requires id in SpaceOf(w, p.tenant).rows
    ensures var s, key := SpaceOf(w, p.tenant), SearchKey(c, p);
      var s' := SpaceOf(After(c, w, Search(p, reply, up)), p.tenant);
      var served := reply == Up && key in w.redis && w.redis[key].Value?;
      var shown := Readable(s, p.tenant, id, w.now) && exists h :: h in HitsFor(c, s, p) && h.id == id;
      && id in s'.rows
      && s'.rows[id] ==
           if served || !shown then s.rows[id]
           else s.rows[id].(accessCount := s.rows[id].accessCount + 1, accessedAt := Some(w.now))
  {
    hide Load, HitsFor, Readable;
    var s := SpaceOf(w, p.tenant);
    TouchWrites(s, ReadIds(c, s, p, w.now), w.now, id);
    hide Touch;
  }

  ghost predicate Legal(c: Config, w: World, steps: seq<Step>)
    decreases |steps|
  {
    steps == [] || (CanStep(w, steps[0]) && Legal(c, After(c, w, steps[0]), steps[1..]))
  }

  ghost function RunAll(c: Config, w: World, steps: seq<Step>): World
    requires Legal(c, w, steps)
    decreases |steps|
  {
    if steps == [] then w else RunAll(c, After(c, w, steps[0]), steps[1..])
  }

  // What is cached for a request is what the loader would return now, were it still the time at
  // which the entry was written.
  ghost predicate FreshFor(c: Config, w: World, p: SearchParts) {
    SearchKey(c, p) in w.redis ==>
      && SearchKey(c, p) in w.stored && w.stored[SearchKey(c, p)] <= w.now
      && w.redis[SearchKey(c, p)] == Value(Load(c, SpaceOf(w, p.tenant), p, w.stored[SearchKey(c, p)]))
  }

  // No other request of the same tenant shares p's digest and is searched for in a step.
  predicate Distinguishes(c: Config, st: Step, p: SearchParts) {
    st.Search? && st.parts.tenant == p.tenant && c.digest(st.parts) == c.digest(p) ==> st.parts == p
  }

  predicate ApartFrom(c: Config, steps: seq<Step>, p: SearchParts) {
    forall st | st in steps :: Distinguishes(c, st, p)
  }

  lemma BustDropsOwnKeys(c: Config, w: World, tenant: Tenant, p: SearchParts)
    requires ValidTenant(tenant) && p.tenant == tenant
    ensures SearchKey(c, p) !in Bust(w.redis, tenant)
  {
    ValidTenantIsSegment(tenant);
    InvalidationIsExact(tenant, "memories_search", tenant, "memories_search", c.digest(p));
  }

  lemma SameLoad(c: Config, s: Space, s': Space, p: SearchParts, now: Time)
    requires SameReading(s, s')
    ensures Load(c, s, p, now) == Load(c, s', p, now)
  {
    SameShown(c, s, s', p.tenant, HitsFor(c, s, p), now);
  }

  lemma WriteFresh(c: Config, w: World, tenant: Tenant, op: Op, p: SearchParts)
    requires ValidTenant(tenant) && ValidTenant(p.tenant) && FreshFor(c, w, p)
    requires Enabled(SpaceOf(w, tenant), tenant, op)
    ensures FreshFor(c, After(c, w, Write(tenant, op)), p)
  {
    hide Apply, Busts;
    var s := SpaceOf(w, tenant);
    if p.tenant == tenant {
      if Busts(c.env, s, tenant, op) {
        BustDropsOwnKeys(c, w, tenant, p);
      } else {
        QuietWritesDoNotShow(c.env, s, tenant, op);
        if SearchKey(c, p) in w.redis {
          SameLoad(c, s, Apply(c.env, s, tenant, op), p, w.stored[SearchKey(c, p)]);
        }
      }
    }
  }

  lemma SearchFresh(c: Config, w: World, q: SearchParts, reply: Reply, up: bool, p: SearchParts)
    requires ValidTenant(q.tenant) && ValidTenant(p.tenant) && FreshFor(c, w, p)
    requires Distinguishes(c, Search(q, reply, up), p)
    ensures FreshFor(c, After(c, w, Search(q, reply, up)), p)
  {
    hide Load, Touch;
    ValidTenantIsSegment(p.tenant);
    ValidTenantIsSegment(q.tenant);
    KeysAreDistinct(p.tenant, "memories_search", c.digest(p), q.tenant, "memories_search", c.digest(q));
    var s := SpaceOf(w, q.tenant);
    var s' := Touch(s, ReadIds(c, s, q, w.now), w.now);
    TouchSame(s, ReadIds(c, s, q, w.now), w.now);
    if p.tenant == q.tenant {
      SameLoad(c, s, s', p, w.now);
      if SearchKey(c, p) in w.redis {
        SameLoad(c, s, s', p, w.stored[SearchKey(c, p)]);
      }
    }
  }

  lemma TickFresh(c: Config, w: World, to: Time, p: SearchParts)
    requires w.now <= to && FreshFor(c, w, p)
    ensures FreshFor(c, After(c, w, Tick(to)), p)
  {
  }

  lemma ForgetFresh(c: Config, w: World, keys: set<string>, p: SearchParts)
    requires FreshFor(c, w, p)
    ensures FreshFor(c, After(c, w, Forget(keys)), p)
  {
  }

  lemma StepFresh(c: Config, w: World, st: Step, p: SearchParts)
    requires ValidTenant(p.tenant) && FreshFor(c, w, p) && CanStep(w, st) && Distinguishes(c, st, p)
    ensures FreshFor(c, After(c, w, st), p)
  {
    hide FreshFor, Distinguishes;
    match st
    case Write(t, op) => WriteFresh(c, w, t, op, p);
    case Search(q, reply, up) => SearchFresh(c, w, q, reply, up, p);
    case Tick(to) => TickFresh(c, w, to, p);
    case Forget(keys) => ForgetFresh(c, w, keys, p);
  }

  lemma {:induction false} RunsStayFresh(c: Config, w: World, steps: seq<Step>, p: SearchParts)
    requires ValidTenant(p.tenant) && FreshFor(c, w, p) && Legal(c, w, steps) && ApartFrom(c, steps, p)
    ensures FreshFor(c, RunAll(c, w, steps), p)
    decreases |steps|
  {
    hide FreshFor, Distinguishes;
    if steps == [] {
    } else {
      assert steps[0] in steps && forall st | st in steps[1..] :: st in steps;
      StepFresh(c, w, steps[0], p);
      RunsStayFresh(c, After(c, w, steps[0]), steps[1..], p);
    }
  }

  // A memory that the cached entry shows has expired since it was written.
  ghost predicate ShownExpired(c: Config, w: World, p: SearchParts) {
    var s, key := SpaceOf(w, p.tenant), SearchKey(c, p);
    key in w.redis && key in w.stored && !AllSurvive(s, p.tenant, HitsFor(c, s, p), w.stored[key], w.now)
  }

  // Whatever was written, read, evicted, failed or waited for before, a search answers exactly
  // what the loader would return at that moment, unless the answer comes from an entry that
  // shows a memory which has expired since; and then it does not. Only requests of the run that
  // share the digest of the one asked about are excluded.
  lemma SearchesAreFresh(c: Config, now: Time, steps: seq<Step>, p: SearchParts, reply: Reply)
    requires ValidTenant(p.tenant) && Legal(c, Start(now), steps) && ApartFrom(c, steps, p)
    ensures var w := RunAll(c, Start(now), steps);
      Answer(c, w, p, reply) == Value(Load(c, SpaceOf(w, p.tenant), p, w.now))
      <==> !(reply.Up? && ShownExpired(c, w, p))
  {
    RunsStayFresh(c, Start(now), steps, p);
    var w := RunAll(c, Start(now), steps);
    hide RunAll, Load, AllSurvive;
    var s, key := SpaceOf(w, p.tenant), SearchKey(c, p);
    if key in w.redis {
      StaleIffExpired(c, s, p, w.stored[key], w.now);
    }
  }

  // What the exclusion is for: once a request has been cached, another one of its tenant with
  // the same digest is answered with the first one's memories.
  lemma CollisionAnswersAnother(c: Config, w: World, q: SearchParts, p: SearchParts)
    requires q.tenant == p.tenant && c.digest(q) == c.digest(p) && SearchKey(c, q) !in w.redis
    ensures var w' := After(c, w, Search(q, Up, true));
      Answer(c, w', p, Up) == Value(Load(c, SpaceOf(w, q.tenant), q, w.now))
  {
  }
}
