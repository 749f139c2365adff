// The memory service itself, step by step over its stores: rows, vectors, logs and the cache
// (mypalace/memory_service.py, mypalace/retrieval/ingestion.py).
module MemoryService {
  import opened Prelude
  import opened MemoryModel
  import opened Ingestion
  import opened ReadCache
  import Freshness
  import CrossTenant
  import Dynamics
  import opened Fsrs

  type Store = map<string, Json<seq<Freshness.OutRow>>>

  const CHUNK := 500

  lemma BustTwice<V>(redis: map<string, Json<V>>, tenant: Tenant)
    ensures Freshness.Bust(Freshness.Bust(redis, tenant), tenant) == Freshness.Bust(redis, tenant)
  {
  }

  // ---- Demotions ----

  // The clock readings of one review.
  datatype Moment = Moment(now: Days, stamped: Days)

  // A superseded memory counts as a failed recall; if that fails, nothing happens.
  function Demoted(m: Math, st: Dynamics.Store, id: Id, user: string, at: Moment): Dynamics.Store {
    Dynamics.After(m, st, Dynamics.Call(id, user, 1, "superseded", at.now, at.stamped))
  }

  // A batch demotes the memories it replaced, in order; `at` tells when candidate i was.
  function DemotedBy(m: Math, st: Dynamics.Store, fates: seq<Fate>, user: string, at: nat -> Moment): Dynamics.Store {
    if fates == [] then st else
      var n := |fates| - 1;
      var before := DemotedBy(m, st, fates[..n], user, at);
      if fates[n].Replaced? then Demoted(m, before, fates[n].oldId, user, at(n)) else before
  }

  lemma NoDemotions(m: Math, st: Dynamics.Store, user: string, at: nat -> Moment)
    ensures DemotedBy(m, st, [], user, at) == st
  {
  }

  lemma DemotedBySnoc(m: Math, st: Dynamics.Store, fates: seq<Fate>, f: Fate, user: string, at: nat -> Moment)
    ensures var before := DemotedBy(m, st, fates, user, at);
      DemotedBy(m, st, fates + [f], user, at) ==
      if f.Replaced? then Demoted(m, before, f.oldId, user, at(|fates|)) else before
  {
    hide Demoted;
    assert (fates + [f])[..|fates|] == fates;
  }

  ghost predicate FailureLogged(st: Dynamics.Store, id: Id, user: string) {
    exists l :: l in st.log && l.id == id && l.user == user && l.grade == 1 && l.signal == "superseded"
  }

  lemma DemotedSpec(m: Math, st: Dynamics.Store, id: Id, user: string, at: Moment)
    requires Laws(m) && Dynamics.Consistent(st)
    ensures var e := Demoted(m, st, id, user, at);
      && Dynamics.Consistent(e) && st.log <= e.log
      && (forall o | o in st.rows :: o in e.rows && e.rows[o].user == st.rows[o].user)
      && (forall o | o in st.rows && st.rows[o].user != user :: e.rows[o] == st.rows[o])
      && (forall o | o in e.rows && o !in st.rows :: e.rows[o].user == user)
      && ((id in st.rows && st.rows[id].user != user) || FailureLogged(e, id, user))
  {
    var call := Dynamics.Call(id, user, 1, "superseded", at.now, at.stamped);
    Dynamics.PromoteConsistent(m, st, call);
    assert Dynamics.ConsistentAt(st, id);
    hide Review, Laws;
    var e := Demoted(m, st, id, user, at);
    if !(id in st.rows && st.rows[id].user != user) {
      assert e.log[|st.log|] in e.log;
    }
  }

  lemma LogsGrow(st: Dynamics.Store, st': Dynamics.Store, id: Id, user: string)
    requires FailureLogged(st, id, user) && st.log <= st'.log
    ensures FailureLogged(st', id, user)
  {
    var l :| l in st.log && l.id == id && l.user == user && l.grade == 1 && l.signal == "superseded";
    var i :| 0 <= i < |st.log| && st.log[i] == l;
    assert st'.log[i] == l;
  }

  // Every memory a batch replaces is logged as failed, unless its review state is another
  // user's; other users' states are untouched.
  lemma {:induction false} ReplacedAreDemoted(m: Math, st: Dynamics.Store, fates: seq<Fate>, user: string,
                                              at: nat -> Moment)
    requires Laws(m) && Dynamics.Consistent(st)
    ensures var e := DemotedBy(m, st, fates, user, at);
      && Dynamics.Consistent(e) && st.log <= e.log
      && (forall o | o in st.rows :: o in e.rows && e.rows[o].user == st.rows[o].user)
      && (forall o | o in st.rows && st.rows[o].user != user :: e.rows[o] == st.rows[o])
      && (forall o | o in e.rows && o !in st.rows :: e.rows[o].user == user)
      && (forall f | f in fates && f.Replaced? ::
          (f.oldId in st.rows && st.rows[f.oldId].user != user) || FailureLogged(e, f.oldId, user))
  {
    hide Laws, Dynamics.Consistent, Demoted, FailureLogged;
    if fates == [] {
    } else {
      var n := |fates| - 1;
      var before, e := DemotedBy(m, st, fates[..n], user, at), DemotedBy(m, st, fates, user, at);
      ReplacedAreDemoted(m, st, fates[..n], user, at);
      if fates[n].Replaced? {
        DemotedSpec(m, before, fates[n].oldId, user, at(n));
      }
      forall f | f in fates && f.Replaced?
        ensures (f.oldId in st.rows && st.rows[f.oldId].user != user) || FailureLogged(e, f.oldId, user)
      {
        if f in fates[..n] && !(f.oldId in st.rows && st.rows[f.oldId].user != user) {
          LogsGrow(before, e, f.oldId, user);
        }
      }
    }
  }

  lemma GroupIds(flat: seq<CrossTenant.Tagged>, x: CrossTenant.Tagged)
    ensures forall t :: CrossTenant.IdsOf(flat + [x], t)
                     == CrossTenant.IdsOf(flat, t) + (if t == x.tenant then {x.id} else {})
    ensures x.tenant !in CrossTenant.Groups(flat) ==> CrossTenant.IdsOf(flat, x.tenant) == {}
  {
    CrossTenant.GroupsSpec(flat);
    forall t
      ensures CrossTenant.IdsOf(flat + [x], t) == CrossTenant.IdsOf(flat, t) + (if t == x.tenant then {x.id} else {})
    {
      assert forall y :: y in flat + [x] <==> y in flat || y == x;
    }
  }

  method GroupFlat(flat: seq<CrossTenant.Tagged>) returns (groups: seq<Tenant>, idsByTenant: map<Tenant, set<Id>>)
    ensures groups == CrossTenant.Groups(flat)
    ensures forall t | t in groups :: t in idsByTenant && idsByTenant[t] == CrossTenant.IdsOf(flat, t)
  {
    hide CrossTenant.IdsOf;
    groups, idsByTenant := [], map[];
    for i := 0 to |flat|
      invariant groups == CrossTenant.Groups(flat[..i])
      invariant forall t :: t in idsByTenant <==> t in groups
      invariant forall t | t in idsByTenant :: idsByTenant[t] == CrossTenant.IdsOf(flat[..i], t)
    {
      var x := flat[i];
      assert flat[..i + 1] == flat[..i] + [x] && flat[..i + 1][..i] == flat[..i];
      GroupIds(flat[..i], x);
      if x.tenant !in idsByTenant {
        groups := groups + [x.tenant];
        idsByTenant := idsByTenant[x.tenant := {}];
      }
      idsByTenant := idsByTenant[x.tenant := idsByTenant[x.tenant] + {x.id}];
    }
    assert flat[..|flat|] == flat;
  }

  class Service {
    const env: Env
    const math: Math
    const cacheEnabled: bool
    var spaces: map<Tenant, Space>
    var redis: Store
    var reviews: map<Tenant, Dynamics.Store>

    constructor (env: Env, math: Math, cacheEnabled: bool)
      ensures spaces == map[] && redis == map[] && reviews == map[]
      ensures this.env == env && this.math == math && this.cacheEnabled == cacheEnabled
    {
      this.env, this.math, this.cacheEnabled := env, math, cacheEnabled;
      spaces, redis, reviews := map[], map[], map[];
    }

    function ReviewsOf(tenant: Tenant): Dynamics.Store
      reads this
    {
      if tenant in reviews then reviews[tenant] else Dynamics.Store(map[], [])
    }

    function SpaceOf(tenant: Tenant): Space
      reads this
    {
      if tenant in spaces then spaces[tenant] else EMPTY
    }

    function Busted(redis0: Store, tenant: Tenant): Store {
      if cacheEnabled then Freshness.Bust(redis0, tenant) else redis0
    }

    method BustCache(tenant: Tenant)
      modifies this`redis
      ensures redis == Busted(old(redis), tenant)
    {
      if cacheEnabled {
        redis := Freshness.Bust(redis, tenant);
      }
    }

    method Create(tenant: Tenant, id: Id, what: NewMemory, now: Time) returns (m: Memory)
      requires id !in SpaceOf(tenant).births // a new random id
      modifies this`spaces, this`redis
      ensures spaces == old(spaces)[tenant := MemoryModel.Create(env, old(SpaceOf(tenant)), tenant, id, what, now)]
      ensures redis == Busted(old(redis), tenant)
      ensures m == SpaceOf(tenant).rows[id]
    {
      var s := SpaceOf(tenant);
      var expiresAt := if what.ttl.Some? then Some(now + what.ttl.value) else None;
      m := Memory(tenant, what.user, what.agent, what.content, what.memoryType, what.source, what.importance,
                  what.metadata, now, now, None, 0, expiresAt);
      s := s.(rows := s.rows[id := m], births := s.births[id := |s.births|]);
      var vector := env.embed(what.content);
      s := s.(points := s.points[id := Point(vector, tenant, what.user, what.agent, what.memoryType)]);
      BustCache(tenant);
      s := s.(versions := s.versions + [Version(id, tenant, what.user, 1, what.content, what.metadata, Created)]);
      spaces := spaces[tenant := s];
    }

    method Get(tenant: Tenant, id: Id, now: Time) returns (m: Option<Memory>)
      modifies this`spaces
      ensures var s := old(SpaceOf(tenant));
        if Has(s, tenant, id) then
          m == Some(Touched(s.rows[id], now)) && spaces == old(spaces)[tenant := Touch(s, {id}, now)]
        else m.None? && spaces == old(spaces)
    {
      var s := SpaceOf(tenant);
      if !(id in s.rows && s.rows[id].tenant == tenant) {
        return None;
      }
      m := Some(s.rows[id].(accessCount := s.rows[id].accessCount + 1, accessedAt := Some(now)));
      assert s.rows[id := m.value] == Touch(s, {id}, now).rows;
      spaces := spaces[tenant := s.(rows := s.rows[id := m.value])];
    }

    method Update(tenant: Tenant, id: Id, p: Patch, now: Time) returns (m: Option<Memory>)
      modifies this`spaces, this`redis
      ensures m.Some? <==> Has(old(SpaceOf(tenant)), tenant, id)
      ensures m.None? ==> spaces == old(spaces) && redis == old(redis)
      ensures m.Some? ==>
        && spaces == old(spaces)[tenant := MemoryModel.Update(env, old(SpaceOf(tenant)), tenant, id, p, now)]
        && redis == Busted(old(redis), tenant) && m == Some(SpaceOf(tenant).rows[id])
    {
      var s := SpaceOf(tenant);
      if !(id in s.rows && s.rows[id].tenant == tenant) {
        return None;
      }
      var row := s.rows[id];
      var points := s.points;
      if p.content.Some? {
        row := row.(content := p.content.value);
        points := points[id := Point(env.embed(p.content.value), tenant, row.user, row.agent, row.memoryType)];
      }
      if p.memoryType.Some? {
        row := row.(memoryType := p.memoryType.value);
      }
      if p.importance.Some? {
        row := row.(importance := p.importance.value);
      }
      if p.metadata.Some? {
        row := row.(metadata := p.metadata);
      }
      row := row.(updatedAt := now);
      BustCache(tenant);
      var number := MaxNumber(s.versions, id) + 1;
      var version := Version(id, tenant, row.user, number, row.content, row.metadata, Updated);
      spaces := spaces[tenant := s.(rows := s.rows[id := row], points := points, versions := s.versions + [version])];
      return Some(row);
    }

    method Delete(tenant: Tenant, id: Id) returns (deleted: bool)
      modifies this`spaces, this`redis
      ensures deleted <==> Has(old(SpaceOf(tenant)), tenant, id)
      ensures !deleted ==> spaces == old(spaces) && redis == old(redis)
      ensures deleted ==>
        && spaces == old(spaces)[tenant := MemoryModel.Delete(old(SpaceOf(tenant)), tenant, id)]
        && redis == Busted(old(redis), tenant)
    {
      var s := SpaceOf(tenant);
      if !(id in s.rows && s.rows[id].tenant == tenant) {
        return false;
      }
      s := s.(rows := s.rows - {id});
      s := s.(points := s.points - {id});
      spaces := spaces[tenant := s];
      BustCache(tenant);
      return true;
    }

    // Vectors go in chunks; together the chunks are all of `ids`.
    method DeleteVectors(tenant: Tenant, ids: seq<Id>)
      requires tenant in spaces
      modifies this`spaces
      ensures spaces == old(spaces)[tenant := old(spaces)[tenant].(points := old(spaces)[tenant].points - Elems(ids))]
    {
      var s := spaces[tenant];
      var i, end := 0, 0;
      assert s.points - Elems(ids[..0]) == s.points;
      while i < |ids|
        invariant 0 <= i && end == (if i < |ids| then i else |ids|) && tenant in spaces
        invariant spaces == old(spaces)[tenant := s.(points := s.points - Elems(ids[..end]))]
      {
        end := if i + CHUNK < |ids| then i + CHUNK else |ids|;
        var chunk := ids[i..end];
        assert ids[..end] == ids[..i] + chunk;
        assert Elems(ids[..end]) == Elems(ids[..i]) + Elems(chunk);
        assert s.points - Elems(ids[..i]) - Elems(chunk) == s.points - Elems(ids[..end]);
        spaces := spaces[tenant := spaces[tenant].(points := spaces[tenant].points - Elems(chunk))];
        i := i + CHUNK;
      }
      assert ids[..|ids|] == ids;
    }

    // `order` is the database's list of the rows it deleted.
    method DeleteForUser(tenant: Tenant, user: string, agent: Option<string>, run: Option<string>, order: seq<Id>)
      returns (count: nat)
      requires Lists(order, UserIds(SpaceOf(tenant), tenant, user, agent, run))
      modifies this`spaces, this`redis
      ensures spaces == old(spaces)[tenant := MemoryModel.DeleteForUser(old(SpaceOf(tenant)), order)]
      ensures redis == Busted(old(redis), tenant)
      ensures count == |UserIds(old(SpaceOf(tenant)), tenant, user, agent, run)|
      ensures forall id | id in old(SpaceOf(tenant)).rows ::
        var m := old(SpaceOf(tenant)).rows[id];
        (id in SpaceOf(tenant).rows <==>
          || m.tenant != tenant
          || m.user != user
          || (agent != None && m.agent != agent)
          || (run != None && (m.metadata == None || "run_id" !in m.metadata.value
                              || Some(m.metadata.value["run_id"]) != run)))
    {
      DistinctSize(order);
      var s := SpaceOf(tenant);
      forall id | id in s.rows ensures id in MemoryModel.DeleteForUser(s, order).rows
          <==> !OfUser(s.rows[id], tenant, user, agent, run)
      {
        UserDeletionIff(s, tenant, user, agent, run, order, id);
      }
      spaces := spaces[tenant := s.(rows := s.rows - Elems(order))];
      DeleteVectors(tenant, order);
      BustCache(tenant);
      return |order|;
    }

    // Every expired row goes; the returned count and the vectors removed are capped by the batch.
    method CleanupExpired(tenant: Tenant, now: Time, batch: int, order: seq<Id>) returns (count: nat)
      requires Lists(order, ExpiredIds(SpaceOf(tenant), tenant, now))
      modifies this`spaces, this`redis
      ensures spaces == old(spaces)[tenant := Cleanup(old(SpaceOf(tenant)), order, batch)]
      ensures redis == if order == [] then old(redis) else Busted(old(redis), tenant)
      ensures count == |Slice(order, batch)|
      ensures forall id | id in SpaceOf(tenant).rows && SpaceOf(tenant).rows[id].tenant == tenant ::
        Live(SpaceOf(tenant).rows[id], now)
    {
      var s := SpaceOf(tenant);
      spaces := spaces[tenant := s.(rows := s.rows - Elems(order))];
      if order == [] {
        assert Slice(order, batch) == order && Elems(order) == {};
        assert s.points - {} == s.points && s.rows - {} == s.rows;
        assert Cleanup(s, order, batch) == s.(rows := s.rows - Elems(order));
        return 0;
      }
      var ids := Slice(order, batch);
      DeleteVectors(tenant, ids);
      BustCache(tenant);
      return |ids|;
    }

    // Live memories of the tenant only, in index order, each counted as read.
    method Search(tenant: Tenant, query: string, user: Option<string>, agent: Option<string>,
                  memoryType: Option<string>, limit: nat, minScore: real, now: Time)
      returns (found: seq<(Id, real)>)
      modifies this`spaces
      ensures var hits := env.index(old(SpaceOf(tenant)).points,
                                    Query(env.embed(query), limit, user, agent, memoryType, minScore, tenant));
        && found == Hydrate(old(SpaceOf(tenant)), tenant, hits, now)
        && spaces == old(spaces)[tenant := Touch(old(SpaceOf(tenant)), set f | f in found :: f.0, now)]
        && (ExactIndex(env) ==> |found| <= limit)
    {
      var s := SpaceOf(tenant);
      var q := Query(env.embed(query), limit, user, agent, memoryType, minScore, tenant);
      var hits := env.index(s.points, q);
      assert ExactIndex(env) ==> ExactAnswer(env, s.points, q, hits);
      found := Hydrate(s, tenant, hits, now);
      HydrateSpec(s, tenant, hits, now);
      spaces := spaces[tenant := Touch(s, set f | f in found :: f.0, now)];
    }

    // The id set aside for the next candidate is still unused.
    lemma StillUnused(s: Space, tenant: Tenant, b: Batch, cs: seq<Candidate>, ids: seq<Id>, i: nat)
      requires |cs| == |ids| && i < |cs| && Distinct(ids) && forall id | id in ids :: id !in s.births
      ensures ids[i] !in IngestAll(env, s, tenant, b, cs[..i], ids[..i]).0.births
    {
      hide IngestAll;
      IngestAllBirths(env, s, tenant, b, cs[..i], ids[..i]);
      assert ids[i] in ids && ids[i] !in ids[..i];
    }

    method AddSupersession(tenant: Tenant, oldId: Id, newId: Id, user: string, reason: string, similarity: Option<real>,
                           at: Moment)
      modifies this`spaces, this`reviews
      ensures spaces == old(spaces)[tenant :=
        RecordSupersession(old(SpaceOf(tenant)), tenant, oldId, newId, user, reason, similarity)]
      ensures reviews == old(reviews)[tenant := Demoted(math, old(ReviewsOf(tenant)), oldId, user, at)]
    {
      var s := SpaceOf(tenant);
      s := s.(supersessions := s.supersessions + [Supersession(oldId, newId, user, reason, similarity)]);
      reviews := reviews[tenant := Demoted(math, ReviewsOf(tenant), oldId, user, at)];
      if oldId in s.rows {
        var row := s.rows[oldId];
        var number := MaxNumber(s.versions, oldId) + 1;
        s := s.(versions := s.versions + [Version(oldId, tenant, user, number, row.content, row.metadata, Superseded)]);
      }
      spaces := spaces[tenant := s];
    }

    method Supersede(tenant: Tenant, oldId: Id, newId: Id, content: string, user: string, reason: string,
                     metadata: Option<Meta>, now: Time, at: Moment) returns (done: bool)
      requires newId !in SpaceOf(tenant).births
      modifies this
      ensures done <==> Has(old(SpaceOf(tenant)), tenant, oldId)
      ensures !done ==> spaces == old(spaces) && redis == old(redis) && reviews == old(reviews)
      ensures done ==> redis == Busted(old(redis), tenant) && spaces == old(spaces)[tenant :=
        SupersedeMemory(env, old(SpaceOf(tenant)), tenant, oldId, newId, content, user, reason, metadata, now)]
      ensures done ==> reviews == old(reviews)[tenant := Demoted(math, old(ReviewsOf(tenant)), oldId, user, at)]
    {
      hide MemoryModel.Create, RecordSupersession, Demoted, Freshness.Bust;
      var m := Get(tenant, oldId, now);
      if m.None? {
        return false;
      }
      var row := m.value;
      var _ := Create(tenant, newId, NewMemory(user, content, row.memoryType, row.agent, row.source,
                                                     row.importance, metadata, None), now);
      AddSupersession(tenant, oldId, newId, user, reason, None, at);
      return true;
    }

    // One candidate of a batch.
    method IngestCandidate(tenant: Tenant, b: Batch, c: Candidate, id: Id, at: Moment) returns (fate: Fate)
      requires id !in SpaceOf(tenant).births
      modifies this
      ensures var result := IngestOne(env, old(SpaceOf(tenant)), tenant, b, c, id);
        SpaceOf(tenant) == result.0 && fate == result.1
      ensures forall t | t != tenant :: SpaceOf(t) == old(SpaceOf(t))
      ensures redis == if fate.Skipped? then old(redis) else Busted(old(redis), tenant)
      ensures reviews == if fate.Replaced?
        then old(reviews)[tenant := Demoted(math, old(ReviewsOf(tenant)), fate.oldId, b.user, at)] else old(reviews)
    {
      hide CheckContradiction, Freshness.Bust, MemoryModel.Create, RecordSupersession, Demoted;
      var hits := env.index(SpaceOf(tenant).points,
                            Query(env.embed(c.content), 1, Some(b.user), b.agent, None, 0.0, tenant));
      if hits != [] {
        var existingId, score := hits[0].id, hits[0].score;
        if score > SKIP_THRESHOLD {
          return Skipped("duplicate", score);
        }
        if score > UPDATE_THRESHOLD {
          var existing := Get(tenant, existingId, b.now);
          if existing.Some? {
            var v := CheckContradiction(env, existing.value.content, c.content);
            if v.contradicts && v.confidence > CONTRADICTION_CONFIDENCE {
              var _ := Create(tenant, id, NewFrom(b, c), b.now);
              AddSupersession(tenant, existingId, id, b.user, "contradiction:" + v.why, Some(score), at);
              return Replaced(id, existingId, score);
            }
            return Skipped("similar", score);
          }
        }
      }
      var _ := Create(tenant, id, NewFrom(b, c), b.now);
      return Written(id);
    }

    method DedupAndWrite(tenant: Tenant, b: Batch, cs: seq<Candidate>, ids: seq<Id>, at: nat -> Moment)
      returns (written: seq<Id>, supersessions: seq<Fate>, skipped: seq<Fate>)
      requires |cs| == |ids| && Distinct(ids) && forall id | id in ids :: id !in SpaceOf(tenant).births
      modifies this
      ensures var (after, fates) := IngestAll(env, old(SpaceOf(tenant)), tenant, b, cs, ids);
        && SpaceOf(tenant) == after
        && written == WrittenIds(fates) && supersessions == ReplacedOnes(fates) && skipped == SkippedOnes(fates)
        && ReviewsOf(tenant) == DemotedBy(math, old(ReviewsOf(tenant)), fates, b.user, at)
      ensures forall t | t != tenant :: SpaceOf(t) == old(SpaceOf(t)) && ReviewsOf(t) == old(ReviewsOf(t))
      ensures redis == if written == [] then old(redis) else Busted(old(redis), tenant)
    {
      hide IngestOne, IngestAll, Demoted, DemotedBy, WrittenIds, SkippedOnes, ReplacedOnes, Freshness.Bust;
      NoFates(env, SpaceOf(tenant), tenant, b);
      NoDemotions(math, ReviewsOf(tenant), b.user, at);
      written, supersessions, skipped := [], [], [];
      ghost var s0, fates := SpaceOf(tenant), [];
      for i := 0 to |cs|
        invariant IngestAll(env, s0, tenant, b, cs[..i], ids[..i]) == (SpaceOf(tenant), fates) && |fates| == i
        invariant written == WrittenIds(fates) && supersessions == ReplacedOnes(fates) && skipped == SkippedOnes(fates)
        invariant ReviewsOf(tenant) == DemotedBy(math, old(ReviewsOf(tenant)), fates, b.user, at)
        invariant forall t | t != tenant :: SpaceOf(t) == old(SpaceOf(t)) && ReviewsOf(t) == old(ReviewsOf(t))
        invariant redis == if written == [] then old(redis) else Busted(old(redis), tenant)
      {
        IngestSnoc(env, s0, tenant, b, cs, ids, i);
        StillUnused(s0, tenant, b, cs, ids, i);
        var fate := IngestCandidate(tenant, b, cs[i], ids[i], at(i));
        BustTwice(old(redis), tenant);
        if fate.Skipped? {
          skipped := skipped + [fate];
        } else {
          written := written + [fate.id];
        }
        if fate.Replaced? {
          supersessions := supersessions + [fate];
        }
        FatesSnoc(fates, fate);
        DemotedBySnoc(math, old(ReviewsOf(tenant)), fates, fate, b.user, at);
        fates := fates + [fate];
      }
      assert cs[..|cs|] == cs && ids[..|ids|] == ids;
    }

    function PointsByTenant(): map<Tenant, map<Id, Point>>
      reads this
    {
      map t | t in spaces :: spaces[t].points
    }

    function RowsByTenant(): map<Tenant, map<Id, Memory>>
      reads this
    {
      map t | t in spaces :: spaces[t].rows
    }

    // Group the ids by tenant, read each group's live rows into one map by bare id, and look
    // every hit up in that map.
    method HydrateFlat(flat: seq<CrossTenant.Tagged>, now: Time) returns (results: seq<CrossTenant.Found>)
      ensures results == CrossTenant.Results(flat, RowsByTenant(), now)
    {
      hide CrossTenant.LiveGroup, CrossTenant.IdsOf, CrossTenant.Groups;
      var groups, idsByTenant := GroupFlat(flat);
      var rows := RowsByTenant();
      var owners: map<Id, Tenant> := map[];
      for g := 0 to |groups|
        invariant owners == CrossTenant.Owners(groups[..g], flat, rows, now)
      {
        assert groups[..g + 1][..g] == groups[..g] && groups[g] in groups;
        owners := owners + CrossTenant.LiveGroup(rows, groups[g], idsByTenant[groups[g]], now);
      }
      assert groups[..|groups|] == groups;
      results := CrossTenant.Paired(flat, owners);
    }

    // `tenants` is the tenant table; a tenant whose search fails contributes nothing. The memory
    // shown for every hit is its own tenant's exactly when no two tenants collide on an id.
    method SearchAllTenants(a: CrossTenant.Ask, tenants: seq<Tenant>, failing: set<Tenant>, now: Time)
      returns (results: seq<CrossTenant.Found>)
      requires Distinct(tenants)
      ensures var merged := CrossTenant.Merged(env, PointsByTenant(), a, tenants, failing);
        && results == CrossTenant.Results(merged, RowsByTenant(), now)
        && (results == CrossTenant.LiveHits(merged, RowsByTenant(), now)
            <==> !CrossTenant.Collide(merged, RowsByTenant(), now))
        && (ExactIndex(env) ==> CrossTenant.IsTop(merged, a.limit,
              CrossTenant.AllCandidates(env, PointsByTenant(), a, tenants, failing)))
    {
      hide CrossTenant.IsTop, CrossTenant.AllCandidates, CrossTenant.Collide, CrossTenant.LiveHits, ExactIndex;
      var vector := env.embed(a.query);
      var perTenant: map<Tenant, seq<CrossTenant.Tagged>> := map[];
      for i := 0 to |tenants|
        invariant perTenant.Keys == Elems(tenants[..i])
        invariant forall t | t in perTenant :: perTenant[t] == CrossTenant.ListOf(env, PointsByTenant(), a, failing, t)
      {
        var t := tenants[i];
        assert tenants[..i + 1] == tenants[..i] + [t];
        var list: seq<CrossTenant.Tagged> := [];
        if t !in failing {
          var q := Query(vector, a.limit, a.user, a.agent, a.memoryType, a.minScore, t);
          list := CrossTenant.Tag(t, env.index(SpaceOf(t).points, q));
        }
        perTenant := perTenant[t := list];
      }
      assert tenants[..|tenants|] == tenants;
      assert perTenant == map t | t in tenants :: CrossTenant.ListOf(env, PointsByTenant(), a, failing, t);
      var flat := CrossTenant.Merge(tenants, perTenant, a.limit);
      results := HydrateFlat(flat, now);
      CrossTenant.HydrationRightIff(flat, RowsByTenant(), now);
      if ExactIndex(env) {
        CrossTenant.MergedIsTop(env, PointsByTenant(), a, tenants, failing);
      }
    }
  }
}
