// Any sequence of operations on a tenant's memories, and what every such run keeps: the index
// agrees with the rows, versions count up from one, supersessions point back in time.
module MemoryRuns {
  import opened Prelude
  import opened MemoryModel
  import opened Ingestion

  datatype Op =
    | CreateOp(id: Id, what: NewMemory, now: Time)
    | UpdateOp(id: Id, patch: Patch, now: Time)
    | DeleteOp(id: Id)
    | DeleteForUserOp(user: string, agent: Option<string>, run: Option<string>, order: seq<Id>)
    | CleanupOp(now: Time, order: seq<Id>, batch: int)
    | ReadOp(read: set<Id>, now: Time) // get and search
    | SupersedeOp(oldId: Id, newId: Id, content: string, user: string, reason: string, metadata: Option<Meta>,
                  now: Time)
    | IngestOp(b: Batch, cs: seq<Candidate>, ids: seq<Id>)

  // New ids are unused (random), and the database lists what it deletes.
  ghost predicate Enabled(s: Space, tenant: Tenant, op: Op) {
    match op
    case CreateOp(id, _, _) => id !in s.births
    case DeleteForUserOp(user, agent, run, order) => Lists(order, UserIds(s, tenant, user, agent, run))
    case CleanupOp(now, order, _) => Lists(order, ExpiredIds(s, tenant, now))
    case SupersedeOp(_, newId, _, _, _, _, _) => newId !in s.births
    case IngestOp(_, cs, ids) => |cs| == |ids| && Distinct(ids) && forall id | id in ids :: id !in s.births
    case _ => true
  }

  function Apply(env: Env, s: Space, tenant: Tenant, op: Op): Space
    requires op.IngestOp? ==> |op.cs| == |op.ids|
  {
    match op
    case CreateOp(id, what, now) => Create(env, s, tenant, id, what, now)
    case UpdateOp(id, patch, now) => Update(env, s, tenant, id, patch, now)
    case DeleteOp(id) => Delete(s, tenant, id)
    case DeleteForUserOp(_, _, _, order) => DeleteForUser(s, order)
    case CleanupOp(_, order, batch) => Cleanup(s, order, batch)
    case ReadOp(ids, now) => Touch(s, ids, now)
    case SupersedeOp(oldId, newId, content, user, reason, metadata, now) =>
      SupersedeMemory(env, s, tenant, oldId, newId, content, user, reason, metadata, now)
    case IngestOp(b, cs, ids) => IngestAll(env, s, tenant, b, cs, ids).0
  }

  ghost predicate Legal(env: Env, s: Space, tenant: Tenant, ops: seq<Op>)
    decreases |ops|
  {
    ops == [] || (Enabled(s, tenant, ops[0]) && Legal(env, Apply(env, s, tenant, ops[0]), tenant, ops[1..]))
  }

  ghost function Run(env: Env, s: Space, tenant: Tenant, ops: seq<Op>): Space
    requires Legal(env, s, tenant, ops)
    decreases |ops|
  {
    if ops == [] then s else Run(env, Apply(env, s, tenant, ops[0]), tenant, ops[1..])
  }

  // ---- The invariants ----

  // Every row has a point that embeds its current content for its own user, agent and tenant.
  ghost predicate Indexed(env: Env, s: Space, tenant: Tenant) {
    forall id | id in s.rows ::
      var m := s.rows[id];
      && m.tenant == tenant
      && id in s.points
      && s.points[id].vector == env.embed(m.content)
      && s.points[id].user == m.user && s.points[id].agent == m.agent && s.points[id].tenant == tenant
  }

  // Only created ids occur, and every creation has its own place in the order.
  ghost predicate Known(s: Space) {
    && s.rows.Keys <= s.births.Keys && s.points.Keys <= s.births.Keys
    && forall id | id in s.births :: s.births[id] < |s.births|
  }

  // A supersession points from a newer memory to an older one.
  ghost predicate PointsBack(s: Space) {
    forall e | e in s.supersessions ::
      e.oldId in s.births && e.newId in s.births && s.births[e.oldId] < s.births[e.newId]
  }

  function History(versions: seq<Version>, id: Id): seq<Version> {
    if versions == [] then [] else
      var last := versions[|versions| - 1];
      History(versions[..|versions| - 1], id) + (if last.id == id then [last] else [])
  }

  // Numbered 1, 2, 3, ..., with the creation first and nowhere else.
  predicate Numbered(h: seq<Version>) {
    forall i | 0 <= i < |h| :: h[i].number == i + 1 && (h[i].kind == Created <==> i == 0)
  }

  // The last snapshot is the row as it stands.
  predicate Current(h: seq<Version>, m: Memory) {
    h != [] && h[|h| - 1].content == m.content && h[|h| - 1].metadata == m.metadata
  }

  predicate VersionedAt(s: Space, id: Id) {
    var h := History(s.versions, id);
    if id in s.births then h != [] && Numbered(h) && (id in s.rows ==> Current(h, s.rows[id]))
    else h == [] && id !in s.rows
  }

  // Every created memory has a numbered history that ends in its row; no other id has any.
  ghost predicate Versioned(s: Space) {
    forall id: Id :: VersionedAt(s, id)
  }

  ghost predicate Sound(env: Env, s: Space, tenant: Tenant) {
    Indexed(env, s, tenant) && Known(s) && PointsBack(s) && Versioned(s)
  }

  // ---- Each primitive keeps them ----

  lemma HistorySnoc(versions: seq<Version>, v: Version, id: Id)
    ensures History(versions + [v], id) == History(versions, id) + (if v.id == id then [v] else [])
  {
    assert (versions + [v])[..|versions|] == versions;
  }

  // The highest number in use is the length of the history.
  lemma {:induction false} MaxIsLength(versions: seq<Version>, id: Id)
    requires Numbered(History(versions, id))
    ensures MaxNumber(versions, id) == |History(versions, id)|
  {
    if versions == [] {
    } else {
      var rest := versions[..|versions| - 1];
      var h, h' := History(versions, id), History(rest, id);
      assert h[..|h'|] == h';
      assert forall i | 0 <= i < |h'| :: h'[i] == h[i];
      MaxIsLength(rest, id);
      if versions[|versions| - 1].id == id {
        assert h[|h'|] == versions[|versions| - 1];
      }
    }
  }

  // One more snapshot, numbered next, of the row as it becomes.
  lemma AppendAt(s: Space, s': Space, v: Version)
    requires VersionedAt(s, v.id) && s'.versions == s.versions + [v]
    requires v.id in s'.births && v.id in s'.rows
    requires v.content == s'.rows[v.id].content && v.metadata == s'.rows[v.id].metadata
    requires if v.id in s.births then v.number == MaxNumber(s.versions, v.id) + 1 && v.kind != Created
             else v.number == 1 && v.kind == Created
    ensures VersionedAt(s', v.id)
  {
    HistorySnoc(s.versions, v, v.id);
    if v.id in s.births {
      MaxIsLength(s.versions, v.id);
    }
  }

  lemma AppendElsewhere(s: Space, s': Space, v: Version, o: Id)
    requires VersionedAt(s, o) && s'.versions == s.versions + [v] && v.id != o
    requires o in s'.births <==> o in s.births
    requires o in s'.rows ==>
      o in s.rows && s'.rows[o].content == s.rows[o].content && s'.rows[o].metadata == s.rows[o].metadata
    ensures VersionedAt(s', o)
  {
    HistorySnoc(s.versions, v, o);
  }

  // Appending one version keeps the whole log in order.
  lemma AppendVersioned(s: Space, s': Space, v: Version)
    requires Versioned(s) && s'.versions == s.versions + [v]
    requires v.id in s'.births && v.id in s'.rows
    requires v.content == s'.rows[v.id].content && v.metadata == s'.rows[v.id].metadata
    requires if v.id in s.births then v.number == MaxNumber(s.versions, v.id) + 1 && v.kind != Created
             else v.number == 1 && v.kind == Created
    requires forall o | o != v.id :: o in s'.births <==> o in s.births
    requires forall o | o != v.id && o in s'.rows ::
      o in s.rows && s'.rows[o].content == s.rows[o].content && s'.rows[o].metadata == s.rows[o].metadata
    ensures Versioned(s')
  {
    hide VersionedAt;
    forall o: Id ensures VersionedAt(s', o) {
      if o == v.id {
        AppendAt(s, s', v);
      } else {
        AppendElsewhere(s, s', v, o);
      }
    }
  }

  lemma NewestBirth(births: map<Id, nat>, id: Id)
    requires id !in births
    ensures |births[id := |births|]| == |births| + 1
  {
    var births' := births[id := |births|];
    assert births'.Keys == births.Keys + {id};
    assert |births'| == |births'.Keys| && |births| == |births.Keys|;
  }

  lemma CreateSound(env: Env, s: Space, tenant: Tenant, id: Id, what: NewMemory, now: Time)
    requires Sound(env, s, tenant) && id !in s.births
    ensures Sound(env, Create(env, s, tenant, id, what, now), tenant)
    ensures var s' := Create(env, s, tenant, id, what, now);
      forall o | o in s.births :: s'.births[o] == s.births[o] && s.births[o] < s'.births[id]
  {
    hide Versioned;
    var s' := Create(env, s, tenant, id, what, now);
    NewestBirth(s.births, id);
    AppendVersioned(s, s', s'.versions[|s.versions|]);
  }

  lemma UpdateSound(env: Env, s: Space, tenant: Tenant, id: Id, p: Patch, now: Time)
    requires Sound(env, s, tenant)
    ensures Sound(env, Update(env, s, tenant, id, p, now), tenant)
  {
    if Has(s, tenant, id) {
      var m := Patched(s.rows[id], p, now);
      AppendVersioned(s, Update(env, s, tenant, id, p, now), VersionOf(s, id, m, m.user, tenant, Updated));
    }
  }

  // Fewer rows, or rows with the same text, leave the log in order.
  lemma SameVersioned(s: Space, s': Space)
    requires Versioned(s) && s'.versions == s.versions && s'.births == s.births
    requires forall o | o in s'.rows ::
      o in s.rows && s'.rows[o].content == s.rows[o].content && s'.rows[o].metadata == s.rows[o].metadata
    ensures Versioned(s')
  {
    forall o: Id ensures VersionedAt(s', o) {
      assert VersionedAt(s, o);
    }
  }

  // Any deletion of rows that takes no points of other rows with it.
  lemma RemoveSound(env: Env, s: Space, tenant: Tenant, rows: set<Id>, points: set<Id>)
    requires Sound(env, s, tenant) && points <= rows
    ensures Sound(env, s.(rows := s.rows - rows, points := s.points - points), tenant)
  {
    SameVersioned(s, s.(rows := s.rows - rows, points := s.points - points));
  }

  lemma TouchSound(env: Env, s: Space, tenant: Tenant, ids: set<Id>, now: Time)
    requires Sound(env, s, tenant)
    ensures Sound(env, Touch(s, ids, now), tenant)
    ensures Touch(s, ids, now).births == s.births && Touch(s, ids, now).rows.Keys == s.rows.Keys
    ensures forall id | id in s.rows :: id in s.births
  {
    SameVersioned(s, Touch(s, ids, now));
  }

  lemma RecordSound(env: Env, s: Space, tenant: Tenant, oldId: Id, newId: Id, user: string, reason: string,
                    sim: Option<real>)
    requires Sound(env, s, tenant) && oldId in s.rows && newId in s.births && s.births[oldId] < s.births[newId]
    ensures Sound(env, RecordSupersession(s, tenant, oldId, newId, user, reason, sim), tenant)
  {
    var s' := RecordSupersession(s, tenant, oldId, newId, user, reason, sim);
    AppendVersioned(s, s', VersionOf(s, oldId, s.rows[oldId], user, tenant, Superseded));
  }

  // A new memory that replaces an existing one, read first.
  lemma ReplaceSound(env: Env, s: Space, tenant: Tenant, oldId: Id, newId: Id, what: NewMemory, user: string,
                     reason: string, sim: Option<real>, now: Time)
    requires Sound(env, s, tenant) && oldId in s.rows && newId !in s.births
    ensures Sound(env, RecordSupersession(Create(env, Touch(s, {oldId}, now), tenant, newId, what, now),
                                          tenant, oldId, newId, user, reason, sim), tenant)
  {
    hide Sound;
    TouchSound(env, s, tenant, {oldId}, now);
    var read := Touch(s, {oldId}, now);
    CreateSound(env, read, tenant, newId, what, now);
    RecordSound(env, Create(env, read, tenant, newId, what, now), tenant, oldId, newId, user, reason, sim);
  }

  lemma IngestOneSound(env: Env, s: Space, tenant: Tenant, b: Batch, c: Candidate, id: Id)
    requires Sound(env, s, tenant) && id !in s.births
    ensures var s' := IngestOne(env, s, tenant, b, c, id).0;
      Sound(env, s', tenant) && s'.births.Keys <= s.births.Keys + {id}
  {
    hide Sound, CheckContradiction, Nearest;
    match Judge(env, s, tenant, b, c)
    case Duplicate(_) =>
    case Redundant(existing, _) => TouchSound(env, s, tenant, {existing}, b.now);
    case Contradicts(existing, similarity, why) =>
      ReplaceSound(env, s, tenant, existing, id, NewFrom(b, c), b.user, "contradiction:" + why, Some(similarity),
                   b.now);
    case Novel => CreateSound(env, s, tenant, id, NewFrom(b, c), b.now);
  }

  lemma {:induction false} IngestAllSound(env: Env, s: Space, tenant: Tenant, b: Batch, cs: seq<Candidate>,
                                          ids: seq<Id>)
    requires Sound(env, s, tenant) && |cs| == |ids| && Distinct(ids) && forall id | id in ids :: id !in s.births
    ensures var s' := IngestAll(env, s, tenant, b, cs, ids).0;
      Sound(env, s', tenant) && s'.births.Keys <= s.births.Keys + Elems(ids)
  {
    hide IngestOne, Sound;
    if cs == [] {
    } else {
      var n := |cs| - 1;
      assert ids == ids[..n] + [ids[n]];
      IngestAllSound(env, s, tenant, b, cs[..n], ids[..n]);
      assert ids[n] !in ids[..n];
      IngestOneSound(env, IngestAll(env, s, tenant, b, cs[..n], ids[..n]).0, tenant, b, cs[n], ids[n]);
    }
  }

  lemma SlicePrefix<T>(s: seq<T>, n: int)
    ensures Slice(s, n) <= s && Elems(Slice(s, n)) <= Elems(s)
  {
  }

  lemma StepSound(env: Env, s: Space, tenant: Tenant, op: Op)
    requires Sound(env, s, tenant) && Enabled(s, tenant, op)
    ensures Sound(env, Apply(env, s, tenant, op), tenant)
  {
    match op
    case CreateOp(id, what, now) => CreateSound(env, s, tenant, id, what, now);
    case UpdateOp(id, patch, now) => UpdateSound(env, s, tenant, id, patch, now);
    case DeleteOp(id) => RemoveSound(env, s, tenant, {id}, {id});
    case DeleteForUserOp(_, _, _, order) => RemoveSound(env, s, tenant, Elems(order), Elems(order));
    case CleanupOp(_, order, batch) =>
      SlicePrefix(order, batch);
      RemoveSound(env, s, tenant, Elems(order), Elems(Slice(order, batch)));
    case ReadOp(ids, now) => TouchSound(env, s, tenant, ids, now);
    case SupersedeOp(oldId, newId, content, user, reason, metadata, now) =>
      if Has(s, tenant, oldId) {
        var m := s.rows[oldId];
        ReplaceSound(env, s, tenant, oldId, newId,
                     NewMemory(user, content, m.memoryType, m.agent, m.source, m.importance, metadata, None),
                     user, reason, None, now);
      }
    case IngestOp(b, cs, ids) => IngestAllSound(env, s, tenant, b, cs, ids);
  }

  // Every run keeps the index in agreement with the rows, the version histories numbered from
  // one and current, and the supersessions pointing back in time.
  lemma {:induction false} RunsAreSound(env: Env, s: Space, tenant: Tenant, ops: seq<Op>)
    requires Sound(env, s, tenant) && Legal(env, s, tenant, ops)
    ensures Sound(env, Run(env, s, tenant, ops), tenant)
    decreases |ops|
  {
    hide Sound, Apply;
    if ops == [] {
    } else {
      StepSound(env, s, tenant, ops[0]);
      RunsAreSound(env, Apply(env, s, tenant, ops[0]), tenant, ops[1..]);
    }
  }

  // ---- Supersession chains ----

  ghost predicate Supersedes(s: Space, newer: Id, older: Id) {
    exists e :: e in s.supersessions && e.newId == newer && e.oldId == older
  }

  // A chain of ids, each superseding the next.
  ghost predicate Chain(s: Space, p: seq<Id>) {
    |p| < 2 || (Supersedes(s, p[0], p[1]) && Chain(s, p[1..]))
  }

  lemma OlderBirth(s: Space, newer: Id, older: Id)
    requires PointsBack(s) && Supersedes(s, newer, older)
    ensures newer in s.births && older in s.births && s.births[older] < s.births[newer]
  {
  }

  lemma {:induction false} ChainDescends(s: Space, p: seq<Id>)
    requires PointsBack(s) && Chain(s, p) && |p| >= 2
    ensures p[0] in s.births && p[|p| - 1] in s.births && s.births[p[|p| - 1]] < s.births[p[0]]
  {
    hide PointsBack, Supersedes;
    OlderBirth(s, p[0], p[1]);
    if |p| > 2 {
      ChainDescends(s, p[1..]);
    }
  }

  // In every run no chain of supersessions comes back to where it started.
  lemma SupersessionsAreAcyclic(env: Env, tenant: Tenant, ops: seq<Op>, p: seq<Id>)
    requires Legal(env, EMPTY, tenant, ops)
    requires |p| >= 2 && Chain(Run(env, EMPTY, tenant, ops), p)
    ensures p[0] != p[|p| - 1]
  {
    RunsAreSound(env, EMPTY, tenant, ops);
    ChainDescends(Run(env, EMPTY, tenant, ops), p);
  }

  // ---- Orphan points ----

  function Orphans(s: Space): set<Id> { s.points.Keys - s.rows.Keys }

  // A cleanup pass that found more expired rows than the vectors it removes.
  predicate Overflows(op: Op) {
    op.CleanupOp? && (if op.batch >= 0 then |op.order| > op.batch else op.order != [])
  }

  lemma SliceLoses(order: seq<Id>, batch: int)
    requires Distinct(order)
    ensures Elems(Slice(order, batch)) == Elems(order) <==>
      !(if batch >= 0 then |order| > batch else order != [])
  {
    var kept := Slice(order, batch);
    DistinctSize(order);
    DistinctSize(kept);
  }

  lemma CreateOrphans(env: Env, s: Space, tenant: Tenant, id: Id, what: NewMemory, now: Time)
    requires Known(s) && id !in s.births
    ensures Orphans(Create(env, s, tenant, id, what, now)) == Orphans(s)
  {
  }

  lemma IngestOneOrphans(env: Env, s: Space, tenant: Tenant, b: Batch, c: Candidate, id: Id)
    requires Sound(env, s, tenant) && id !in s.births
    ensures Orphans(IngestOne(env, s, tenant, b, c, id).0) == Orphans(s)
  {
    CarryKeys(env, s, tenant, b, c, id, Judge(env, s, tenant, b, c));
    assert id !in s.points && id !in s.rows;
  }

  lemma {:induction false} IngestAllOrphans(env: Env, s: Space, tenant: Tenant, b: Batch, cs: seq<Candidate>,
                                            ids: seq<Id>)
    requires Sound(env, s, tenant) && |cs| == |ids| && Distinct(ids) && forall id | id in ids :: id !in s.births
    ensures Orphans(IngestAll(env, s, tenant, b, cs, ids).0) == Orphans(s)
  {
    hide IngestOne, Sound, Orphans;
    if cs == [] {
    } else {
      var n := |cs| - 1;
      assert ids == ids[..n] + [ids[n]];
      IngestAllSound(env, s, tenant, b, cs[..n], ids[..n]);
      IngestAllOrphans(env, s, tenant, b, cs[..n], ids[..n]);
      assert ids[n] !in ids[..n];
      IngestOneOrphans(env, IngestAll(env, s, tenant, b, cs[..n], ids[..n]).0, tenant, b, cs[n], ids[n]);
    }
  }

  // A cleanup adds exactly the vectors it leaves behind.
  lemma CleanupOrphans(env: Env, s: Space, tenant: Tenant, op: Op)
    requires Sound(env, s, tenant) && Enabled(s, tenant, op) && op.CleanupOp?
    ensures Orphans(s) <= Orphans(Cleanup(s, op.order, op.batch))
    ensures Orphans(Cleanup(s, op.order, op.batch)) == Orphans(s) <==> !Overflows(op)
  {
    SlicePrefix(op.order, op.batch);
    SliceLoses(op.order, op.batch);
    var lost := Elems(op.order) - Elems(Slice(op.order, op.batch));
    assert Elems(op.order) <= s.rows.Keys <= s.points.Keys;
    assert Orphans(Cleanup(s, op.order, op.batch)) == Orphans(s) + lost;
    assert lost !! Orphans(s);
  }

  lemma RemoveOrphans(env: Env, s: Space, tenant: Tenant, ids: set<Id>)
    requires Sound(env, s, tenant) && ids <= s.rows.Keys
    ensures Orphans(s.(rows := s.rows - ids, points := s.points - ids)) == Orphans(s)
  {
  }

  lemma UpdateOrphans(env: Env, s: Space, tenant: Tenant, id: Id, p: Patch, now: Time)
    requires Sound(env, s, tenant)
    ensures Orphans(Update(env, s, tenant, id, p, now)) == Orphans(s)
  {
  }

  lemma SoundKnown(env: Env, s: Space, tenant: Tenant)
    requires Sound(env, s, tenant)
    ensures Known(s)
  {
  }

  lemma TouchOrphans(s: Space, ids: set<Id>, now: Time)
    ensures Orphans(Touch(s, ids, now)) == Orphans(s)
  {
    assert Touch(s, ids, now).rows.Keys == s.rows.Keys;
  }

  lemma SupersedeOrphans(env: Env, s: Space, tenant: Tenant, op: Op)
    requires Sound(env, s, tenant) && Enabled(s, tenant, op) && op.SupersedeOp?
    ensures Orphans(Apply(env, s, tenant, op)) == Orphans(s)
  {
    if Has(s, tenant, op.oldId) {
      assert op.newId !in s.rows && op.newId !in s.points;
      assert Touch(s, {op.oldId}, op.now).rows.Keys == s.rows.Keys;
    }
  }

  // Only an overflowing cleanup makes orphans, it always does, and nothing removes them.
  lemma StepOrphans(env: Env, s: Space, tenant: Tenant, op: Op)
    requires Sound(env, s, tenant) && Enabled(s, tenant, op)
    ensures Orphans(s) <= Orphans(Apply(env, s, tenant, op))
    ensures Orphans(Apply(env, s, tenant, op)) == Orphans(s) <==> !Overflows(op)
  {
    hide Sound, Orphans, Update, Create, Cleanup, IngestAll;
    match op
    case CreateOp(id, what, now) =>
      assert Known(s) by { SoundKnown(env, s, tenant); }
      CreateOrphans(env, s, tenant, id, what, now);
    case UpdateOp(id, patch, now) => UpdateOrphans(env, s, tenant, id, patch, now);
    case DeleteOp(id) =>
      if Has(s, tenant, id) {
        RemoveOrphans(env, s, tenant, {id});
      }
    case DeleteForUserOp(_, _, _, order) => RemoveOrphans(env, s, tenant, Elems(order));
    case CleanupOp(_, _, _) => CleanupOrphans(env, s, tenant, op);
    case ReadOp(ids, now) => TouchOrphans(s, ids, now);
    case SupersedeOp(oldId, newId, content, user, reason, metadata, now) =>
      SupersedeOrphans(env, s, tenant, op);
    case IngestOp(b, cs, ids) => IngestAllOrphans(env, s, tenant, b, cs, ids);
  }

  lemma {:induction false} OrphansIff(env: Env, s: Space, tenant: Tenant, ops: seq<Op>)
    requires Sound(env, s, tenant) && Legal(env, s, tenant, ops)
    ensures Orphans(s) <= Orphans(Run(env, s, tenant, ops))
    ensures Orphans(Run(env, s, tenant, ops)) == Orphans(s) <==> forall op | op in ops :: !Overflows(op)
    decreases |ops|
  {
    hide Sound, Overflows, Orphans;
    if ops == [] {
    } else {
      assert ops == [ops[0]] + ops[1..];
      StepSound(env, s, tenant, ops[0]);
      StepOrphans(env, s, tenant, ops[0]);
      OrphansIff(env, Apply(env, s, tenant, ops[0]), tenant, ops[1..]);
    }
  }

  lemma EmptySound(env: Env, tenant: Tenant)
    ensures Sound(env, EMPTY, tenant) && Orphans(EMPTY) == {}
  {
  }

  lemma RowsHavePoints(env: Env, s: Space, tenant: Tenant)
    requires Sound(env, s, tenant)
    ensures s.points.Keys == s.rows.Keys <==> Orphans(s) == {}
  {
    assert s.rows.Keys <= s.points.Keys by {
      forall id | id in s.rows ensures id in s.points { assert id in s.rows; }
    }
    if Orphans(s) == {} {
      forall id | id in s.points ensures id in s.rows { assert id !in Orphans(s); }
    }
  }

  // Points and rows carry the same ids exactly when no cleanup pass of the run overflowed.
  lemma SameIdsIff(env: Env, tenant: Tenant, ops: seq<Op>)
    requires Legal(env, EMPTY, tenant, ops)
    ensures var e := Run(env, EMPTY, tenant, ops);
      e.points.Keys == e.rows.Keys <==> forall op | op in ops :: !Overflows(op)
  {
    hide Sound, Legal, Run, Orphans, Overflows;
    EmptySound(env, tenant);
    OrphansIff(env, EMPTY, tenant, ops);
    RunsAreSound(env, EMPTY, tenant, ops);
    RowsHavePoints(env, Run(env, EMPTY, tenant, ops), tenant);
  }

  // ---- Separation ----

  // No two memories of one user and agent are near duplicates.
  ghost predicate Separated(env: Env, s: Space) {
    forall a, b | a in s.rows && b in s.rows && a != b
      && s.rows[a].user == s.rows[b].user && s.rows[a].agent == s.rows[b].agent ::
      env.sim(env.embed(s.rows[a].content), env.embed(s.rows[b].content)) <= SKIP_THRESHOLD
  }

  // A candidate that is not a duplicate is far enough from every memory of its user and agent.
  lemma {:induction false} NotDuplicateIsFar(env: Env, s: Space, tenant: Tenant, b: Batch, content: string, other: Id)
    requires ExactIndex(env) && Indexed(env, s, tenant)
    requires var hits := Nearest(env, s, tenant, b, content); hits == [] || hits[0].score <= SKIP_THRESHOLD
    requires other in s.rows && s.rows[other].user == b.user && s.rows[other].agent == b.agent
    ensures env.sim(env.embed(content), env.embed(s.rows[other].content)) <= SKIP_THRESHOLD
  {
    var q := Query(env.embed(content), 1, Some(b.user), b.agent, None, 0.0, tenant);
    var hits := env.index(s.points, q);
    assert ExactAnswer(env, s.points, q, hits);
    assert Matches(s.points[other], q);
    if Eligible(env, s.points[other], q) && hits != [] {
      assert hits[0] in hits;
    }
  }

  lemma AddedSeparated(env: Env, s: Space, s': Space, id: Id)
    requires Symmetric(env) && Separated(env, s) && id !in s.rows && s'.rows.Keys == s.rows.Keys + {id}
    requires forall o | o in s.rows ::
      && s'.rows[o].user == s.rows[o].user && s'.rows[o].agent == s.rows[o].agent
      && s'.rows[o].content == s.rows[o].content
    requires forall o | o in s.rows && s.rows[o].user == s'.rows[id].user && s.rows[o].agent == s'.rows[id].agent ::
      env.sim(env.embed(s'.rows[id].content), env.embed(s.rows[o].content)) <= SKIP_THRESHOLD
    ensures Separated(env, s')
  {
    forall a, b | a in s'.rows && b in s'.rows && a != b
      && s'.rows[a].user == s'.rows[b].user && s'.rows[a].agent == s'.rows[b].agent
      ensures env.sim(env.embed(s'.rows[a].content), env.embed(s'.rows[b].content)) <= SKIP_THRESHOLD
    {
      if a == id {
        assert b in s.rows;
      } else if b == id {
        assert a in s.rows;
        assert env.sim(env.embed(s'.rows[b].content), env.embed(s'.rows[a].content)) <= SKIP_THRESHOLD;
      }
    }
  }

  lemma CarryAdds(env: Env, s: Space, tenant: Tenant, b: Batch, c: Candidate, id: Id, d: Decision)
    requires id !in s.rows
    ensures var s' := CarryOut(env, s, tenant, b, c, id, d);
      && (forall o | o in s.rows ::
          (o in s'.rows && s'.rows[o].user == s.rows[o].user
           && s'.rows[o].agent == s.rows[o].agent && s'.rows[o].content == s.rows[o].content))
      && (!FateOf(d, id).Skipped? ==>
          (id in s'.rows && s'.rows[id].user == b.user
           && s'.rows[id].agent == b.agent && s'.rows[id].content == c.content))
  {
  }

  lemma WrittenIsNoDuplicate(env: Env, s: Space, tenant: Tenant, b: Batch, c: Candidate, id: Id)
    ensures var hits := Nearest(env, s, tenant, b, c.content);
      FateOf(Judge(env, s, tenant, b, c), id).Skipped? || hits == [] || hits[0].score <= SKIP_THRESHOLD
  {
  }

  lemma SameContentSeparated(env: Env, s: Space, s': Space)
    requires Separated(env, s) && s'.rows.Keys <= s.rows.Keys
    requires forall o | o in s'.rows ::
      && s'.rows[o].user == s.rows[o].user && s'.rows[o].agent == s.rows[o].agent
      && s'.rows[o].content == s.rows[o].content
    ensures Separated(env, s')
  {
  }

  lemma IngestOneSeparated(env: Env, s: Space, tenant: Tenant, b: Batch, c: Candidate, id: Id)
    requires ExactIndex(env) && Symmetric(env)
    requires Sound(env, s, tenant) && Separated(env, s) && id !in s.births
    ensures Separated(env, IngestOne(env, s, tenant, b, c, id).0)
  {
    hide Judge, CarryOut, ExactIndex, Separated, Symmetric, Nearest;
    SoundKnown(env, s, tenant);
    var d := Judge(env, s, tenant, b, c);
    CarryAdds(env, s, tenant, b, c, id, d);
    CarryKeys(env, s, tenant, b, c, id, d);
    WrittenIsNoDuplicate(env, s, tenant, b, c, id);
    var s' := CarryOut(env, s, tenant, b, c, id, d);
    if FateOf(d, id).Skipped? {
      SameContentSeparated(env, s, s');
    } else {
      forall o | o in s.rows && s.rows[o].user == b.user && s.rows[o].agent == b.agent
        ensures env.sim(env.embed(c.content), env.embed(s.rows[o].content)) <= SKIP_THRESHOLD
      {
        NotDuplicateIsFar(env, s, tenant, b, c.content, o);
      }
      AddedSeparated(env, s, s', id);
    }
  }

  lemma {:induction false} IngestAllSeparated(env: Env, s: Space, tenant: Tenant, b: Batch, cs: seq<Candidate>,
                                              ids: seq<Id>)
    requires ExactIndex(env) && Symmetric(env) && Sound(env, s, tenant) && Separated(env, s)
    requires |cs| == |ids| && Distinct(ids) && forall id | id in ids :: id !in s.births
    ensures Separated(env, IngestAll(env, s, tenant, b, cs, ids).0)
  {
    hide IngestOne, Sound, Separated, ExactIndex, Symmetric;
    if cs == [] {
    } else {
      var n := |cs| - 1;
      assert ids == ids[..n] + [ids[n]];
      IngestAllSound(env, s, tenant, b, cs[..n], ids[..n]);
      IngestAllSeparated(env, s, tenant, b, cs[..n], ids[..n]);
      assert ids[n] !in ids[..n];
      IngestOneSeparated(env, IngestAll(env, s, tenant, b, cs[..n], ids[..n]).0, tenant, b, cs[n], ids[n]);
    }
  }

  // Runs whose only writes of content are smart ingestion.
  predicate Curated(op: Op) {
    op.IngestOp? || op.DeleteOp? || op.DeleteForUserOp? || op.CleanupOp? || op.ReadOp?
  }

  lemma StepSeparated(env: Env, s: Space, tenant: Tenant, op: Op)
    requires ExactIndex(env) && Symmetric(env) && Sound(env, s, tenant) && Separated(env, s)
    requires Enabled(s, tenant, op) && Curated(op)
    ensures Separated(env, Apply(env, s, tenant, op))
  {
    hide Sound, Separated, ExactIndex, Symmetric;
    if op.IngestOp? {
      IngestAllSeparated(env, s, tenant, op.b, op.cs, op.ids);
    } else {
      SameContentSeparated(env, s, Apply(env, s, tenant, op));
    }
  }

  // With an exact index and a symmetric similarity, smart ingestion never stores a near
  // duplicate, not even of another candidate of the same batch.
  lemma {:induction false} CuratedRunsStaySeparated(env: Env, s: Space, tenant: Tenant, ops: seq<Op>)
    requires ExactIndex(env) && Symmetric(env) && Sound(env, s, tenant) && Separated(env, s)
    requires Legal(env, s, tenant, ops) && forall op | op in ops :: Curated(op)
    ensures Separated(env, Run(env, s, tenant, ops))
    decreases |ops|
  {
    hide Sound, Separated, ExactIndex, Symmetric;
    if ops == [] {
    } else {
      assert ops == [ops[0]] + ops[1..];
      StepSound(env, s, tenant, ops[0]);
      StepSeparated(env, s, tenant, ops[0]);
      CuratedRunsStaySeparated(env, Apply(env, s, tenant, ops[0]), tenant, ops[1..]);
    }
  }

  // ---- What a duplicate is a duplicate of ----

  // A stored memory of the batch's user and agent, as far as they are given, that is closer to
  // the candidate than the skip threshold.
  predicate CloseBy(env: Env, s: Space, b: Batch, c: Candidate, id: Id) {
    && id in s.rows
    && Allows(Some(b.user), Some(s.rows[id].user)) && Allows(b.agent, s.rows[id].agent)
    && env.sim(env.embed(c.content), env.embed(s.rows[id].content)) > SKIP_THRESHOLD
  }

  lemma NearestIsNear(env: Env, s: Space, tenant: Tenant, b: Batch, c: Candidate)
    requires ExactIndex(env) && Sound(env, s, tenant) && s.points.Keys == s.rows.Keys
    ensures Judge(env, s, tenant, b, c).Duplicate? ==> exists id :: CloseBy(env, s, b, c, id)
  {
    hide Known, PointsBack, Versioned, CheckContradiction;
    if Judge(env, s, tenant, b, c).Duplicate? {
      var q := Query(env.embed(c.content), 1, Some(b.user), b.agent, None, 0.0, tenant);
      var hits := env.index(s.points, q);
      assert ExactAnswer(env, s.points, q, hits);
      assert hits[0] in hits && CloseBy(env, s, b, c, hits[0].id);
    }
  }

  // Without an overflowing cleanup, a candidate skipped as a duplicate has a stored memory of
  // the same user and agent that is that close to it.
  lemma DuplicateIsStored(env: Env, tenant: Tenant, ops: seq<Op>, b: Batch, c: Candidate)
    requires ExactIndex(env) && Legal(env, EMPTY, tenant, ops) && forall op | op in ops :: !Overflows(op)
    ensures var s := Run(env, EMPTY, tenant, ops);
      Judge(env, s, tenant, b, c).Duplicate? ==> exists id :: CloseBy(env, s, b, c, id)
  {
    EmptySound(env, tenant);
    RunsAreSound(env, EMPTY, tenant, ops);
    SameIdsIff(env, tenant, ops);
    var s := Run(env, EMPTY, tenant, ops);
    hide Run, Legal;
    NearestIsNear(env, s, tenant, b, c);
  }

  // The store after a memory with no time to live was created and cleaned up with a batch of none.
  function LeftBehind(env: Env, tenant: Tenant, id: Id, what: NewMemory, now: Time): Space {
    Cleanup(Create(env, EMPTY, tenant, id, what, now), [id], 0)
  }

  lemma OnlyPointIsFirst(env: Env, points: map<Id, Point>, q: Query, id: Id)
    requires ExactIndex(env) && points.Keys == {id} && Eligible(env, points[id], q) && q.limit > 0
    ensures env.index(points, q) != [] && env.index(points, q)[0].score == env.sim(q.vector, points[id].vector)
  {
    var hits := env.index(points, q);
    assert ExactAnswer(env, points, q, hits);
    assert hits != [] && hits[0] in hits;
  }

  lemma OrphanIsNearest(env: Env, tenant: Tenant, id: Id, what: NewMemory, now: Time)
    requires ExactIndex(env) && env.sim(env.embed(what.content), env.embed(what.content)) > SKIP_THRESHOLD
    ensures var b := Batch(what.user, what.agent, what.memoryType, what.source, map[], now);
      var e := LeftBehind(env, tenant, id, what, now);
      e.rows == map[] && Judge(env, e, tenant, b, Candidate(what.content, None, map[])).Duplicate?
  {
    var e := LeftBehind(env, tenant, id, what, now);
    var q := Query(env.embed(what.content), 1, Some(what.user), what.agent, None, 0.0, tenant);
    assert e.points.Keys == {id} && e.rows == map[];
    OnlyPointIsFirst(env, e.points, q, id);
    hide ExactIndex, CheckContradiction;
  }

  lemma TwoOps(env: Env, s: Space, tenant: Tenant, first: Op, second: Op)
    requires Enabled(s, tenant, first) && Enabled(Apply(env, s, tenant, first), tenant, second)
    ensures Legal(env, s, tenant, [first] + [second])
    ensures Run(env, s, tenant, [first] + [second]) == Apply(env, Apply(env, s, tenant, first), tenant, second)
  {
    hide Apply;
    var ops := [first] + [second];
    var s' := Apply(env, s, tenant, first);
    var e := Apply(env, s', tenant, second);
    assert ops[1..] == [second] && ops[1..][1..] == [];
    assert Legal(env, e, tenant, ops[1..][1..]) && Run(env, e, tenant, ops[1..][1..]) == e;
    assert Legal(env, s', tenant, ops[1..]) && Run(env, s', tenant, ops[1..]) == e;
  }

  lemma OrphanSteps(env: Env, tenant: Tenant, id: Id, what: NewMemory, now: Time)
    requires what.ttl == Some(0)
    ensures var create, cleanup := CreateOp(id, what, now), CleanupOp(now, [id], 0);
      var s := Apply(env, EMPTY, tenant, create);
      Enabled(EMPTY, tenant, create) && Enabled(s, tenant, cleanup)
      && Apply(env, s, tenant, cleanup) == LeftBehind(env, tenant, id, what, now)
  {
    assert ExpiredIds(Create(env, EMPTY, tenant, id, what, now), tenant, now) == {id} == Elems([id]);
  }

  // After an overflow the vector of a deleted memory can swallow a new one: the same text is
  // skipped as a duplicate although nothing is stored.
  lemma OrphanSwallows(env: Env, tenant: Tenant, id: Id, what: NewMemory, now: Time)
    requires ExactIndex(env) && what.ttl == Some(0)
    requires env.sim(env.embed(what.content), env.embed(what.content)) > SKIP_THRESHOLD
    ensures var ops := [CreateOp(id, what, now)] + [CleanupOp(now, [id], 0)];
      var b := Batch(what.user, what.agent, what.memoryType, what.source, map[], now);
      && Legal(env, EMPTY, tenant, ops) && Run(env, EMPTY, tenant, ops).rows == map[]
      && Judge(env, Run(env, EMPTY, tenant, ops), tenant, b, Candidate(what.content, None, map[])).Duplicate?
  {
    hide Judge, ExactIndex, Legal, Run, Enabled, Apply, LeftBehind;
    OrphanIsNearest(env, tenant, id, what, now);
    OrphanSteps(env, tenant, id, what, now);
    TwoOps(env, EMPTY, tenant, CreateOp(id, what, now), CleanupOp(now, [id], 0));
  }

  // ---- The memory type in the payload ----

  ghost predicate TypesAgree(s: Space) {
    forall id | id in s.rows :: id in s.points && s.points[id].memoryType == s.rows[id].memoryType
  }

  // An update that gives a memory another type.
  predicate Retypes(s: Space, tenant: Tenant, op: Op) {
    && op.UpdateOp? && Has(s, tenant, op.id)
    && op.patch.memoryType.Some? && op.patch.memoryType.value != s.rows[op.id].memoryType
  }

  // An update leaves payload and row with the same type exactly when it does not change the
  // type: new content or not, the payload keeps the type from before.
  lemma UpdateTypesIff(env: Env, s: Space, tenant: Tenant, id: Id, p: Patch, now: Time)
    requires TypesAgree(s)
    ensures TypesAgree(Update(env, s, tenant, id, p, now)) <==> !Retypes(s, tenant, UpdateOp(id, p, now))
  {
    var s' := Update(env, s, tenant, id, p, now);
    if Retypes(s, tenant, UpdateOp(id, p, now)) {
      assert id in s'.rows && s'.points[id].memoryType == s.rows[id].memoryType;
    }
  }

  lemma CreateTypes(env: Env, s: Space, tenant: Tenant, id: Id, what: NewMemory, now: Time)
    requires TypesAgree(s)
    ensures TypesAgree(Create(env, s, tenant, id, what, now))
  {
  }

  lemma TouchTypes(s: Space, ids: set<Id>, now: Time)
    requires TypesAgree(s)
    ensures TypesAgree(Touch(s, ids, now))
  {
  }

  lemma RecordTypes(s: Space, tenant: Tenant, oldId: Id, newId: Id, user: string, reason: string, sim: Option<real>)
    requires TypesAgree(s)
    ensures TypesAgree(RecordSupersession(s, tenant, oldId, newId, user, reason, sim))
  {
  }

  lemma IngestOneTypes(env: Env, s: Space, tenant: Tenant, b: Batch, c: Candidate, id: Id)
    requires TypesAgree(s)
    ensures TypesAgree(IngestOne(env, s, tenant, b, c, id).0)
  {
    hide TypesAgree, Create, Touch, RecordSupersession, Nearest, CheckContradiction;
    match Judge(env, s, tenant, b, c)
    case Duplicate(_) =>
    case Redundant(existing, _) => TouchTypes(s, {existing}, b.now);
    case Contradicts(existing, similarity, why) =>
      TouchTypes(s, {existing}, b.now);
      var read := Touch(s, {existing}, b.now);
      CreateTypes(env, read, tenant, id, NewFrom(b, c), b.now);
      RecordTypes(Create(env, read, tenant, id, NewFrom(b, c), b.now), tenant, existing, id, b.user,
                  "contradiction:" + why, Some(similarity));
    case Novel => CreateTypes(env, s, tenant, id, NewFrom(b, c), b.now);
  }

  lemma {:induction false} IngestAllTypes(env: Env, s: Space, tenant: Tenant, b: Batch, cs: seq<Candidate>,
                                          ids: seq<Id>)
    requires TypesAgree(s) && |cs| == |ids|
    ensures TypesAgree(IngestAll(env, s, tenant, b, cs, ids).0)
  {
    hide TypesAgree, IngestOne;
    if cs == [] {
    } else {
      var n := |cs| - 1;
      IngestAllTypes(env, s, tenant, b, cs[..n], ids[..n]);
      IngestOneTypes(env, IngestAll(env, s, tenant, b, cs[..n], ids[..n]).0, tenant, b, cs[n], ids[n]);
    }
  }

  lemma StepTypesIff(env: Env, s: Space, tenant: Tenant, op: Op)
    requires TypesAgree(s) && Enabled(s, tenant, op)
    ensures TypesAgree(Apply(env, s, tenant, op)) <==> !Retypes(s, tenant, op)
  {
    match op
    case CreateOp(id, what, now) => CreateTypes(env, s, tenant, id, what, now);
    case UpdateOp(id, patch, now) => UpdateTypesIff(env, s, tenant, id, patch, now);
    case DeleteOp(_) =>
    case DeleteForUserOp(_, _, _, _) =>
    case CleanupOp(_, order, batch) => SlicePrefix(order, batch);
    case ReadOp(ids, now) => TouchTypes(s, ids, now);
    case SupersedeOp(oldId, newId, content, user, reason, metadata, now) =>
      hide TypesAgree, Create, Touch, RecordSupersession;
      if Has(s, tenant, oldId) {
        var m, read := s.rows[oldId], Touch(s, {oldId}, now);
        var what := NewMemory(user, content, m.memoryType, m.agent, m.source, m.importance, metadata, None);
        TouchTypes(s, {oldId}, now);
        CreateTypes(env, read, tenant, newId, what, now);
        RecordTypes(Create(env, read, tenant, newId, what, now), tenant, oldId, newId, user, reason, None);
      }
    case IngestOp(b, cs, ids) => IngestAllTypes(env, s, tenant, b, cs, ids);
  }

  ghost predicate TypesAlwaysAgree(env: Env, s: Space, tenant: Tenant, ops: seq<Op>)
    requires Legal(env, s, tenant, ops)
    decreases |ops|
  {
    TypesAgree(s) && (ops != [] ==> TypesAlwaysAgree(env, Apply(env, s, tenant, ops[0]), tenant, ops[1..]))
  }

  ghost predicate NeverRetypes(env: Env, s: Space, tenant: Tenant, ops: seq<Op>)
    requires Legal(env, s, tenant, ops)
    decreases |ops|
  {
    ops != [] ==> !Retypes(s, tenant, ops[0]) && NeverRetypes(env, Apply(env, s, tenant, ops[0]), tenant, ops[1..])
  }

  // Payloads carry their rows' types all through a run exactly when no update of it changes one.
  lemma {:induction false} TypesAgreeIff(env: Env, s: Space, tenant: Tenant, ops: seq<Op>)
    requires TypesAgree(s) && Legal(env, s, tenant, ops)
    ensures TypesAlwaysAgree(env, s, tenant, ops) <==> NeverRetypes(env, s, tenant, ops)
    decreases |ops|
  {
    hide TypesAgree, Retypes, Apply;
    if ops == [] {
    } else {
      var s' := Apply(env, s, tenant, ops[0]);
      StepTypesIff(env, s, tenant, ops[0]);
      if TypesAgree(s') {
        TypesAgreeIff(env, s', tenant, ops[1..]);
      }
    }
  }

  // ---- What a search finds, told by the rows ----

  // A filter that is missing or empty lets everything pass.
  predicate Passes(filter: Option<string>, value: Option<string>) {
    filter == None || filter == Some("") || filter == value
  }

  // The row answers the request: of the user, agent and type asked for, not expired, close enough.
  predicate Asked(env: Env, m: Memory, q: Query, now: Time) {
    && Passes(q.user, Some(m.user)) && Passes(q.agent, m.agent) && Passes(q.memoryType, Some(m.memoryType))
    && (m.expiresAt == None || (m.expiresAt.Some? && m.expiresAt.value > now))
    && env.sim(q.vector, env.embed(m.content)) >= q.minScore
  }

  lemma EligibleByRow(env: Env, s: Space, tenant: Tenant, q: Query, id: Id)
    requires Indexed(env, s, tenant) && TypesAgree(s) && q.tenant == tenant && id in s.rows
    ensures id in s.points && s.points[id].vector == env.embed(s.rows[id].content)
    ensures var m := s.rows[id];
      Eligible(env, s.points[id], q) <==>
        && Passes(q.user, Some(m.user)) && Passes(q.agent, m.agent) && Passes(q.memoryType, Some(m.memoryType))
        && env.sim(q.vector, env.embed(m.content)) >= q.minScore
  {
  }

  // In every sound store whose payloads carry the rows' types, a search with an exact index shows
  // only rows that answer the request, with the similarity of their current text; and it misses one
  // that does only if `limit` hits are at least as close.
  lemma SearchFindsRows(env: Env, s: Space, tenant: Tenant, q: Query, now: Time, id: Id)
    requires ExactIndex(env) && Sound(env, s, tenant) && TypesAgree(s) && q.tenant == tenant && id in s.rows
    ensures var hits := env.index(s.points, q);
      var found := Hydrate(s, tenant, hits, now);
      var score := env.sim(q.vector, env.embed(s.rows[id].content));
      && |found| <= q.limit && FoundBestFirst(found)
      && (forall f | f in found && f.0 == id :: Asked(env, s.rows[id], q, now) && f.1 == score)
      && (Asked(env, s.rows[id], q, now) && (id, score) !in found ==>
            |hits| == q.limit && forall h | h in hits :: h.score >= score)
  {
    var hits := env.index(s.points, q);
    assert ExactAnswer(env, s.points, q, hits);
    HydrateSpec(s, tenant, hits, now);
    assert s.rows[id].tenant == tenant && id in s.points;
    EligibleByRow(env, s, tenant, q, id);
    hide Sound, TypesAgree, ExactIndex, Eligible, Passes, Hydrate;
  }

  // ---- What no operation changes ----

  predicate SameOrigin(m: Memory, m': Memory) {
    && m'.tenant == m.tenant && m'.user == m.user && m'.agent == m.agent && m'.source == m.source
    && m'.createdAt == m.createdAt && m'.expiresAt == m.expiresAt
  }

  // Rows keep where they come from and when they expire, and deleted ones do not come back.
  ghost predicate KeepsOrigins(s: Space, s': Space) {
    && s.births.Keys <= s'.births.Keys
    && forall id | id in s.births && id in s'.rows :: id in s.rows && SameOrigin(s.rows[id], s'.rows[id])
  }

  lemma OriginsChain(s: Space, s': Space, s'': Space)
    requires KeepsOrigins(s, s') && KeepsOrigins(s', s'')
    ensures KeepsOrigins(s, s'')
  {
  }

  lemma SameRowsOrigins(s: Space)
    requires Known(s)
    ensures KeepsOrigins(s, s)
  {
  }

  lemma TouchOrigins(s: Space, ids: set<Id>, now: Time)
    requires Known(s)
    ensures KeepsOrigins(s, Touch(s, ids, now))
  {
  }

  lemma NewRowOrigins(env: Env, s: Space, tenant: Tenant, id: Id, what: NewMemory, now: Time)
    requires Known(s) && id !in s.births
    ensures KeepsOrigins(s, Create(env, s, tenant, id, what, now))
  {
  }

  lemma ReplaceOrigins(env: Env, s: Space, tenant: Tenant, oldId: Id, newId: Id, what: NewMemory, user: string,
                       reason: string, sim: Option<real>, now: Time)
    requires Known(s) && newId !in s.births
    ensures KeepsOrigins(s, RecordSupersession(Create(env, Touch(s, {oldId}, now), tenant, newId, what, now),
                                               tenant, oldId, newId, user, reason, sim))
  {
    hide VersionOf;
  }

  lemma IngestOneOrigins(env: Env, s: Space, tenant: Tenant, b: Batch, c: Candidate, id: Id)
    requires Known(s) && id !in s.births
    ensures KeepsOrigins(s, IngestOne(env, s, tenant, b, c, id).0)
  {
    hide CheckContradiction, Nearest, KeepsOrigins, Create, Touch, RecordSupersession;
    match Judge(env, s, tenant, b, c)
    case Duplicate(_) => SameRowsOrigins(s);
    case Redundant(existing, _) => TouchOrigins(s, {existing}, b.now);
    case Contradicts(existing, similarity, why) =>
      ReplaceOrigins(env, s, tenant, existing, id, NewFrom(b, c), b.user, "contradiction:" + why, Some(similarity),
                     b.now);
    case Novel => NewRowOrigins(env, s, tenant, id, NewFrom(b, c), b.now);
  }

  lemma {:induction false} IngestAllOrigins(env: Env, s: Space, tenant: Tenant, b: Batch, cs: seq<Candidate>,
                                            ids: seq<Id>)
    requires Sound(env, s, tenant) && |cs| == |ids| && Distinct(ids) && forall id | id in ids :: id !in s.births
    ensures KeepsOrigins(s, IngestAll(env, s, tenant, b, cs, ids).0)
  {
    hide IngestOne, KeepsOrigins, Indexed, Known, PointsBack, Versioned;
    if cs == [] {
      SameRowsOrigins(s);
    } else {
      var n := |cs| - 1;
      var before := IngestAll(env, s, tenant, b, cs[..n], ids[..n]).0;
      assert ids == ids[..n] + [ids[n]] && ids[n] !in ids[..n];
      IngestAllOrigins(env, s, tenant, b, cs[..n], ids[..n]);
      IngestAllSound(env, s, tenant, b, cs[..n], ids[..n]);
      IngestOneOrigins(env, before, tenant, b, cs[n], ids[n]);
      OriginsChain(s, before, IngestOne(env, before, tenant, b, cs[n], ids[n]).0);
    }
  }

  lemma StepOrigins(env: Env, s: Space, tenant: Tenant, op: Op)
    requires Sound(env, s, tenant) && Enabled(s, tenant, op)
    ensures KeepsOrigins(s, Apply(env, s, tenant, op))
  {
    hide Indexed, PointsBack, Versioned;
    match op
    case CreateOp(id, what, now) => NewRowOrigins(env, s, tenant, id, what, now);
    case UpdateOp(_, _, _) =>
    case DeleteOp(_) =>
    case DeleteForUserOp(_, _, _, _) =>
    case CleanupOp(_, _, _) =>
    case ReadOp(ids, now) => TouchOrigins(s, ids, now);
    case SupersedeOp(oldId, newId, content, user, reason, metadata, now) =>
      if Has(s, tenant, oldId) {
        var m := s.rows[oldId];
        ReplaceOrigins(env, s, tenant, oldId, newId,
                       NewMemory(user, content, m.memoryType, m.agent, m.source, m.importance, metadata, None),
                       user, reason, None, now);
      }
    case IngestOp(b, cs, ids) => IngestAllOrigins(env, s, tenant, b, cs, ids);
  }

  // In every run a memory keeps its tenant, user, agent, source, creation time and expiry for as long
  // as it is there, and once deleted it does not come back.
  lemma {:induction false} OriginsAreFixed(env: Env, s: Space, tenant: Tenant, ops: seq<Op>)
    requires Sound(env, s, tenant) && Legal(env, s, tenant, ops)
    ensures KeepsOrigins(s, Run(env, s, tenant, ops))
    decreases |ops|
  {
    hide Apply, KeepsOrigins, Indexed, PointsBack, Versioned;
    if ops == [] {
      SameRowsOrigins(s);
    } else {
      var s' := Apply(env, s, tenant, ops[0]);
      StepSound(env, s, tenant, ops[0]);
      StepOrigins(env, s, tenant, ops[0]);
      OriginsAreFixed(env, s', tenant, ops[1..]);
      OriginsChain(s, s', Run(env, s', tenant, ops[1..]));
    }
  }

  // So a memory created with a time to live stays readable exactly until that has passed, whatever
  // happens to it in between, unless it is deleted.
  lemma TimeToLiveStands(env: Env, s: Space, tenant: Tenant, id: Id, what: NewMemory, now: Time, ops: seq<Op>,
                         later: Time)
    requires Sound(env, s, tenant) && id !in s.births
    requires Legal(env, Create(env, s, tenant, id, what, now), tenant, ops)
    ensures var e := Run(env, Create(env, s, tenant, id, what, now), tenant, ops);
      Readable(e, tenant, id, later)
      <==> id in e.rows && (what.ttl == None || (what.ttl.Some? && later < now + what.ttl.value))
  {
    CreateSound(env, s, tenant, id, what, now);
    CreateWrites(env, s, tenant, id, what, now);
    OriginsAreFixed(env, Create(env, s, tenant, id, what, now), tenant, ops);
    hide Sound, Legal, Run, Create;
  }

}
