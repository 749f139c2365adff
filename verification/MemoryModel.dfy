// One tenant's memories: its rows, its vector collection, its version and supersession logs,
// and what each operation of mypalace/memory_service.py, mypalace/vector.py and
// mypalace/retrieval/ingestion.py does to them.
module MemoryModel {
  import opened Prelude

  type Id = string
  type Tenant = string
  type Time = int // seconds
  type Meta = map<string, string>

  datatype Memory = Memory(
    tenant: Tenant, user: string, agent: Option<string>, content: string, memoryType: string,
    source: Option<string>, importance: real, metadata: Option<Meta>, createdAt: Time, updatedAt: Time,
    accessedAt: Option<Time>, accessCount: nat, expiresAt: Option<Time>)

  // A stored vector with its payload.
  datatype Point = Point(vector: Vec, tenant: Tenant, user: string, agent: Option<string>, memoryType: string)

  datatype ChangeKind = Created | Updated | Superseded

  datatype Version = Version(id: Id, tenant: Tenant, user: string, number: int, content: string,
                             metadata: Option<Meta>, kind: ChangeKind)

  datatype Supersession = Supersession(oldId: Id, newId: Id, user: string, reason: string, similarity: Option<real>)

  // `births` records the order in which ids were first created.
  datatype Space = Space(rows: map<Id, Memory>, points: map<Id, Point>, versions: seq<Version>,
                         supersessions: seq<Supersession>, births: map<Id, nat>)

  const EMPTY := Space(map[], map[], [], [], map[])

  // ---- Vector search ----

  datatype Query = Query(vector: Vec, limit: nat, user: Option<string>, agent: Option<string>,
                         memoryType: Option<string>, minScore: real, tenant: Tenant)

  datatype Hit = Hit(id: Id, score: real)

  // The embedding model, the similarity, the index's search over a collection, and the text
  // analysis behind the contradiction heuristic.
  datatype Env = Env(
    embed: string -> Vec,
    sim: (Vec, Vec) -> real,
    index: (map<Id, Point>, Query) -> seq<Hit>,
    negated: string -> bool,
    tokens: string -> set<string>)

  // A filter that is missing or empty is not applied.
  predicate Allows(filter: Option<string>, value: Option<string>) {
    filter.None? || filter.value == "" || value == filter
  }

  predicate Matches(p: Point, q: Query) {
    && Allows(q.user, Some(p.user))
    && Allows(q.agent, p.agent)
    && Allows(q.memoryType, Some(p.memoryType))
    && p.tenant == q.tenant
  }

  predicate Eligible(env: Env, p: Point, q: Query) {
    Matches(p, q) && env.sim(q.vector, p.vector) >= q.minScore
  }

  // The hits are the best `limit` eligible points, best first.
  ghost predicate ExactAnswer(env: Env, points: map<Id, Point>, q: Query, hits: seq<Hit>) {
    && |hits| <= q.limit
    && (forall i, j | 0 <= i < j < |hits| :: hits[i].id != hits[j].id && hits[i].score >= hits[j].score)
    && (forall h | h in hits ::
        h.id in points && Eligible(env, points[h.id], q) && h.score == env.sim(q.vector, points[h.id].vector))
    && (forall id | id in points && Eligible(env, points[id], q) ::
        (exists i :: 0 <= i < |hits| && hits[i].id == id)
        || (|hits| == q.limit && forall h | h in hits :: h.score >= env.sim(q.vector, points[id].vector)))
  }

  ghost predicate ExactIndex(env: Env) {
    forall points: map<Id, Point>, q: Query :: ExactAnswer(env, points, q, env.index(points, q))
  }

  ghost predicate Symmetric(env: Env) {
    forall a: Vec, b: Vec :: env.sim(a, b) == env.sim(b, a)
  }

  // ---- Versions ----

  function MaxNumber(versions: seq<Version>, id: Id): int {
    if versions == [] then 0 else
      var last, rest := versions[|versions| - 1], MaxNumber(versions[..|versions| - 1], id);
      if last.id == id && last.number > rest then last.number else rest
  }

  function VersionOf(s: Space, id: Id, m: Memory, user: string, tenant: Tenant, kind: ChangeKind): Version {
    Version(id, tenant, user, MaxNumber(s.versions, id) + 1, m.content, m.metadata, kind)
  }

  // ---- Operations ----

  datatype NewMemory = NewMemory(user: string, content: string, memoryType: string, agent: Option<string>,
                                 source: Option<string>, importance: real, metadata: Option<Meta>, ttl: Option<int>)

  function Row(tenant: Tenant, what: NewMemory, now: Time): Memory {
    Memory(tenant, what.user, what.agent, what.content, what.memoryType, what.source, what.importance,
           what.metadata, now, now, None, 0, if what.ttl.Some? then Some(now + what.ttl.value) else None)
  }

  function PointFor(env: Env, tenant: Tenant, content: string, m: Memory): Point {
    Point(env.embed(content), tenant, m.user, m.agent, m.memoryType)
  }

  function Create(env: Env, s: Space, tenant: Tenant, id: Id, what: NewMemory, now: Time): Space {
    var m := Row(tenant, what, now);
    s.(rows := s.rows[id := m],
       points := s.points[id := PointFor(env, tenant, what.content, m)],
       versions := s.versions + [Version(id, tenant, what.user, 1, what.content, what.metadata, Created)],
       births := s.births[id := |s.births|])
  }

  predicate Has(s: Space, tenant: Tenant, id: Id) {
    id in s.rows && s.rows[id].tenant == tenant
  }

  datatype Patch = Patch(content: Option<string>, memoryType: Option<string>, importance: Option<real>,
                         metadata: Option<Meta>)

  function Patched(m: Memory, p: Patch, now: Time): Memory {
    m.(content := if p.content.Some? then p.content.value else m.content,
       memoryType := if p.memoryType.Some? then p.memoryType.value else m.memoryType,
       importance := if p.importance.Some? then p.importance.value else m.importance,
       metadata := if p.metadata.Some? then p.metadata else m.metadata,
       updatedAt := now)
  }

  // New content is embedded under the memory type the row had before the patch.
  function Update(env: Env, s: Space, tenant: Tenant, id: Id, p: Patch, now: Time): Space {
    if !Has(s, tenant, id) then s else
      var m := Patched(s.rows[id], p, now);
      s.(rows := s.rows[id := m],
         points := if p.content.Some? then s.points[id := PointFor(env, tenant, p.content.value, s.rows[id])]
                   else s.points,
         versions := s.versions + [VersionOf(s, id, m, m.user, tenant, Updated)])
  }

  function Delete(s: Space, tenant: Tenant, id: Id): Space {
    if Has(s, tenant, id) then s.(rows := s.rows - {id}, points := s.points - {id}) else s
  }

  predicate OfUser(m: Memory, tenant: Tenant, user: string, agent: Option<string>, run: Option<string>) {
    && m.tenant == tenant && m.user == user
    && (agent.Some? ==> m.agent == agent)
    && (run.Some? ==> m.metadata.Some? && "run_id" in m.metadata.value && m.metadata.value["run_id"] == run.value)
  }

  predicate Expired(m: Memory, now: Time) {
    m.expiresAt.Some? && m.expiresAt.value <= now
  }

  // `order` is how the database lists the deleted ids.
  ghost predicate Lists(order: seq<Id>, ids: set<Id>) {
    Distinct(order) && Elems(order) == ids
  }

  function UserIds(s: Space, tenant: Tenant, user: string, agent: Option<string>, run: Option<string>): set<Id> {
    set id | id in s.rows && OfUser(s.rows[id], tenant, user, agent, run)
  }

  function ExpiredIds(s: Space, tenant: Tenant, now: Time): set<Id> {
    set id | id in s.rows && s.rows[id].tenant == tenant && Expired(s.rows[id], now)
  }

  function DeleteForUser(s: Space, order: seq<Id>): Space {
    s.(rows := s.rows - Elems(order), points := s.points - Elems(order))
  }

  // Python's s[:n], which counts from the end when n is negative.
  function Slice<T>(s: seq<T>, n: int): seq<T> {
    if n >= |s| then s else if n >= 0 then s[..n] else if |s| + n >= 0 then s[..|s| + n] else []
  }

  // Every expired row goes, but only the first `batch` vectors.
  function Cleanup(s: Space, order: seq<Id>, batch: int): Space {
    s.(rows := s.rows - Elems(order), points := s.points - Elems(Slice(order, batch)))
  }

  // Reading a memory counts as an access.
  function Touched(m: Memory, now: Time): Memory {
    m.(accessCount := m.accessCount + 1, accessedAt := Some(now))
  }

  function Touch(s: Space, ids: set<Id>, now: Time): Space {
    s.(rows := map id | id in s.rows :: if id in ids then Touched(s.rows[id], now) else s.rows[id])
  }

  function RecordSupersession(s: Space, tenant: Tenant, oldId: Id, newId: Id, user: string, reason: string,
                              similarity: Option<real>): Space {
    s.(supersessions := s.supersessions + [Supersession(oldId, newId, user, reason, similarity)],
       versions := if oldId in s.rows
                   then s.versions + [VersionOf(s, oldId, s.rows[oldId], user, tenant, Superseded)]
                   else s.versions)
  }

  function SupersedeMemory(env: Env, s: Space, tenant: Tenant, oldId: Id, newId: Id, content: string, user: string,
                           reason: string, metadata: Option<Meta>, now: Time): Space {
    if !Has(s, tenant, oldId) then s else
      var m := s.rows[oldId];
      var what := NewMemory(user, content, m.memoryType, m.agent, m.source, m.importance, metadata, None);
      RecordSupersession(Create(env, Touch(s, {oldId}, now), tenant, newId, what, now),
                         tenant, oldId, newId, user, reason, None)
  }

  predicate Live(m: Memory, now: Time) { !Expired(m, now) }

  predicate Readable(s: Space, tenant: Tenant, id: Id, now: Time) {
    Has(s, tenant, id) && Live(s.rows[id], now)
  }

  // ---- What the operations write, field by field ----

  lemma CreateWrites(env: Env, s: Space, tenant: Tenant, id: Id, what: NewMemory, now: Time)
    ensures var e := Create(env, s, tenant, id, what, now);
      && e.rows == s.rows[id := Memory(
           tenant, what.user, what.agent, what.content, what.memoryType, what.source, what.importance, what.metadata,
           now, now, None, 0, if what.ttl == None then None else Some(now + what.ttl.value))]
      && e.points == s.points[id := Point(env.embed(what.content), tenant, what.user, what.agent, what.memoryType)]
      && e.versions == s.versions + [Version(id, tenant, what.user, 1, what.content, what.metadata, Created)]
      && e.supersessions == s.supersessions && e.births == s.births[id := |s.births|]
  {
  }

  // A memory created to live d seconds is readable exactly until then, in its own tenant only;
  // one created without a limit always is.
  lemma ReadableUntil(env: Env, s: Space, tenant: Tenant, id: Id, what: NewMemory, now: Time, other: Tenant,
                      later: Time)
    ensures Readable(Create(env, s, tenant, id, what, now), other, id, later)
      <==> other == tenant && (what.ttl == None || (what.ttl.Some? && later < now + what.ttl.value))
  {
  }

  lemma UpdateWrites(env: Env, s: Space, tenant: Tenant, id: Id, p: Patch, now: Time)
    ensures var e := Update(env, s, tenant, id, p, now);
      if id !in s.rows || s.rows[id].tenant != tenant then e == s else
        var m := s.rows[id];
        var content := if p.content == None then m.content else p.content.value;
        var metadata := if p.metadata == None then m.metadata else p.metadata;
        && e.rows == s.rows[id := Memory(
             tenant, m.user, m.agent, content, if p.memoryType == None then m.memoryType else p.memoryType.value,
             m.source, if p.importance == None then m.importance else p.importance.value, metadata,
             m.createdAt, now, m.accessedAt, m.accessCount, m.expiresAt)]
        && e.points == (if p.content == None then s.points
                        else s.points[id := Point(env.embed(content), tenant, m.user, m.agent, m.memoryType)])
        && e.versions ==
             s.versions + [Version(id, tenant, m.user, MaxNumber(s.versions, id) + 1, content, metadata, Updated)]
        && e.supersessions == s.supersessions && e.births == s.births
  {
  }

  lemma TouchWrites(s: Space, ids: set<Id>, now: Time, id: Id)
    ensures var e := Touch(s, ids, now);
      && e == s.(rows := e.rows) && (id in e.rows <==> id in s.rows)
      && (id in s.rows && id !in ids ==> e.rows[id] == s.rows[id])
      && (id in s.rows && id in ids ==>
            e.rows[id] == s.rows[id].(accessCount := s.rows[id].accessCount + 1, accessedAt := Some(now)))
  {
  }

  // Exactly the tenant's own memory goes, with its vector; the logs keep what they have.
  lemma DeletionIff(s: Space, tenant: Tenant, id: Id, other: Id)
    ensures var e := Delete(s, tenant, id);
      && (other in e.rows <==> other in s.rows && !(other == id && s.rows[id].tenant == tenant))
      && (other in e.rows ==> e.rows[other] == s.rows[other])
      && (other in e.points <==> other in s.points && (other in s.rows ==> other in e.rows))
      && (other in e.points ==> e.points[other] == s.points[other])
      && e == s.(rows := e.rows, points := e.points)
  {
  }

  // After a user's memories are deleted, a row is left, unchanged and with its vector, exactly when
  // it is of another tenant, of another user, of another agent than the one given, or of no run or
  // another run than the one given.
  lemma UserDeletionIff(s: Space, tenant: Tenant, user: string, agent: Option<string>, run: Option<string>,
                        order: seq<Id>, id: Id)
    requires Lists(order, UserIds(s, tenant, user, agent, run)) && id in s.rows
    ensures var e, m := DeleteForUser(s, order), s.rows[id];
      && (id in e.rows <==>
            || m.tenant != tenant
            || m.user != user
            || (agent != None && m.agent != agent)
            || (run != None && (m.metadata == None || "run_id" !in m.metadata.value
                                || Some(m.metadata.value["run_id"]) != run)))
      && (id in e.rows ==> e.rows[id] == m)
      && (id in e.points <==> id in s.points && id in e.rows)
      && (id in e.points ==> e.points[id] == s.points[id])
      && e == s.(rows := e.rows, points := e.points)
  {
  }

  // A cleanup leaves a row exactly when that is of another tenant, never expires, or expires later.
  // Of the deleted rows, those in the database's order before the cut lose their vectors too; a
  // negative batch puts the cut that far from the end.
  lemma CleanupIff(s: Space, tenant: Tenant, now: Time, order: seq<Id>, batch: int, id: Id)
    requires Lists(order, ExpiredIds(s, tenant, now)) && id in s.rows
    ensures var e, m := Cleanup(s, order, batch), s.rows[id];
      var cut := if batch < 0 then |order| + batch else batch;
      && (id in e.rows <==> m.tenant != tenant || m.expiresAt == None || m.expiresAt.value > now)
      && (id in e.rows ==> e.rows[id] == m)
      && (id in e.points <==>
            id in s.points && (id in e.rows || exists i :: 0 <= i < |order| && i >= cut && order[i] == id))
      && (id in e.points ==> e.points[id] == s.points[id])
      && e == s.(rows := e.rows, points := e.points)
  {
    if id in Elems(order) {
      var i :| 0 <= i < |order| && order[i] == id;
      var cut := if batch < 0 then |order| + batch else batch;
      assert 0 <= cut <= |order| ==> (id in order[..cut] <==> i < cut);
    }
  }

  // A supersession is logged, and the old row as it stands becomes the next version.
  lemma SupersessionWrites(s: Space, tenant: Tenant, oldId: Id, newId: Id, user: string, reason: string,
                           similarity: Option<real>)
    ensures var e := RecordSupersession(s, tenant, oldId, newId, user, reason, similarity);
      && e == s.(supersessions := e.supersessions, versions := e.versions)
      && e.supersessions == s.supersessions + [Supersession(oldId, newId, user, reason, similarity)]
      && (oldId !in s.rows ==> e.versions == s.versions)
      && (oldId in s.rows ==>
            var m, number := s.rows[oldId], MaxNumber(s.versions, oldId) + 1;
            e.versions == s.versions + [Version(oldId, tenant, user, number, m.content, m.metadata, Superseded)])
  {
  }

  // A manual replacement takes over type, agent, source and importance from the old memory, which
  // is read once; it gets its own text, user and metadata, and never expires.
  lemma ReplacementWrites(env: Env, s: Space, tenant: Tenant, oldId: Id, newId: Id, content: string, user: string,
                          reason: string, metadata: Option<Meta>, now: Time)
    requires newId !in s.rows
    ensures var e := SupersedeMemory(env, s, tenant, oldId, newId, content, user, reason, metadata, now);
      if oldId !in s.rows || s.rows[oldId].tenant != tenant then e == s else
        var m := s.rows[oldId];
        && e.rows == s.rows[oldId := m.(accessCount := m.accessCount + 1, accessedAt := Some(now))]
                           [newId := Memory(tenant, user, m.agent, content, m.memoryType, m.source, m.importance,
                                            metadata, now, now, None, 0, None)]
        && e.points == s.points[newId := Point(env.embed(content), tenant, user, m.agent, m.memoryType)]
        && e.supersessions == s.supersessions + [Supersession(oldId, newId, user, reason, None)]
  {
    hide MaxNumber, VersionOf;
  }

  // The log gets the replacement's first version and then the old memory's last.
  lemma ReplacementVersions(env: Env, s: Space, tenant: Tenant, oldId: Id, newId: Id, content: string, user: string,
                            reason: string, metadata: Option<Meta>, now: Time)
    requires newId !in s.rows && oldId in s.rows && s.rows[oldId].tenant == tenant
    ensures var e := SupersedeMemory(env, s, tenant, oldId, newId, content, user, reason, metadata, now);
      var m, created := s.rows[oldId], s.versions + [Version(newId, tenant, user, 1, content, metadata, Created)];
      e.versions == created + [Version(oldId, tenant, user, MaxNumber(created, oldId) + 1, m.content, m.metadata,
                                       Superseded)]
  {
    var m, read := s.rows[oldId], Touch(s, {oldId}, now);
    var what := NewMemory(user, content, m.memoryType, m.agent, m.source, m.importance, metadata, None);
    var made := Create(env, read, tenant, newId, what, now);
    var e := SupersedeMemory(env, s, tenant, oldId, newId, content, user, reason, metadata, now);
    hide Touch, MaxNumber, Create, RecordSupersession;
    assert e == RecordSupersession(made, tenant, oldId, newId, user, reason, None);
    hide SupersedeMemory;
    TouchWrites(s, {oldId}, now, oldId);
    CreateWrites(env, read, tenant, newId, what, now);
    assert made.versions == s.versions + [Version(newId, tenant, user, 1, content, metadata, Created)];
    assert made.rows[oldId].content == m.content && made.rows[oldId].metadata == m.metadata;
    SupersessionWrites(made, tenant, oldId, newId, user, reason, None);
  }

  // ---- Reading ----

  // The hits that still have a live row in the tenant, in index order.
  function Hydrate(s: Space, tenant: Tenant, hits: seq<Hit>, now: Time): seq<(Id, real)> {
    if hits == [] then [] else
      (if Readable(s, tenant, hits[0].id, now) then [(hits[0].id, hits[0].score)] else [])
        + Hydrate(s, tenant, hits[1..], now)
  }

  lemma {:induction false} HydrateMembers(s: Space, tenant: Tenant, hits: seq<Hit>, now: Time)
    ensures var found := Hydrate(s, tenant, hits, now);
      && |found| <= |hits|
      && (forall f | f in found :: Readable(s, tenant, f.0, now) && Hit(f.0, f.1) in hits)
      && (forall h | h in hits && Readable(s, tenant, h.id, now) :: (h.id, h.score) in found)
  {
    hide Readable;
    if hits == [] {
    } else {
      HydrateMembers(s, tenant, hits[1..], now);
      assert hits == [hits[0]] + hits[1..];
    }
  }

  predicate BestFirst(hits: seq<Hit>) {
    forall i, j | 0 <= i < j < |hits| :: hits[i].score >= hits[j].score
  }

  predicate FoundBestFirst(found: seq<(Id, real)>) {
    forall i, j | 0 <= i < j < |found| :: found[i].1 >= found[j].1
  }

  lemma {:induction false} HydrateOrder(s: Space, tenant: Tenant, hits: seq<Hit>, now: Time)
    requires BestFirst(hits)
    ensures FoundBestFirst(Hydrate(s, tenant, hits, now))
  {
    hide Readable;
    if hits == [] {
    } else {
      var rest := Hydrate(s, tenant, hits[1..], now);
      HydrateOrder(s, tenant, hits[1..], now);
      HydrateMembers(s, tenant, hits[1..], now);
      forall i | 0 <= i < |rest| ensures hits[0].score >= rest[i].1 {
        assert rest[i] in rest;
        var k :| 0 <= k < |hits[1..]| && hits[1..][k] == Hit(rest[i].0, rest[i].1);
        assert hits[k + 1].score == rest[i].1;
      }
    }
  }

  // Hydration keeps exactly the readable hits, with their scores, in the order of the hits.
  lemma {:induction false} HydrateSpec(s: Space, tenant: Tenant, hits: seq<Hit>, now: Time)
    ensures var found := Hydrate(s, tenant, hits, now);
      && |found| <= |hits|
      && (forall f | f in found :: Readable(s, tenant, f.0, now) && Hit(f.0, f.1) in hits)
      && (forall h | h in hits && Readable(s, tenant, h.id, now) :: (h.id, h.score) in found)
      && (BestFirst(hits) ==> FoundBestFirst(found))
  {
    HydrateMembers(s, tenant, hits, now);
    if BestFirst(hits) {
      HydrateOrder(s, tenant, hits, now);
    }
  }
}
