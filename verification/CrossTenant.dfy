// Searching every tenant at once (mypalace/memory_service.py, search_all_tenants): merging the
// tenants' best hits, and hydrating the merged list by bare id.
module CrossTenant {
  import opened Prelude
  import opened MemoryModel

  datatype Tagged = Tagged(id: Id, score: real, tenant: Tenant)

  const SCORE := (x: Tagged) => x.score

  function Tag(tenant: Tenant, hits: seq<Hit>): seq<Tagged> {
    if hits == [] then [] else [Tagged(hits[0].id, hits[0].score, tenant)] + Tag(tenant, hits[1..])
  }

  // r is a best-`limit` selection of the candidates, best first.
  ghost predicate IsTop(r: seq<Tagged>, limit: nat, candidates: set<Tagged>) {
    && |r| <= limit && Distinct(r) && Descending(SCORE, r)
    && (forall x | x in r :: x in candidates)
    && (forall x | x in candidates :: x in r || (|r| == limit && forall y | y in r :: y.score >= x.score))
  }

  // A tenant's candidates for a query: its eligible points with their scores.
  ghost function Candidates(env: Env, points: map<Id, Point>, q: Query): set<Tagged> {
    set id | id in points && Eligible(env, points[id], q) :: Tagged(id, env.sim(q.vector, points[id].vector), q.tenant)
  }

  lemma {:induction false} TagSpec(tenant: Tenant, hits: seq<Hit>)
    ensures |Tag(tenant, hits)| == |hits|
    ensures forall i | 0 <= i < |hits| :: Tag(tenant, hits)[i] == Tagged(hits[i].id, hits[i].score, tenant)
  {
    if hits == [] {
    } else {
      TagSpec(tenant, hits[1..]);
    }
  }

  // One tenant's exact answer is a best selection of its own candidates.
  lemma ExactAnswerIsTop(env: Env, points: map<Id, Point>, q: Query, hits: seq<Hit>)
    requires ExactAnswer(env, points, q, hits)
    ensures IsTop(Tag(q.tenant, hits), q.limit, Candidates(env, points, q))
  {
    TagSpec(q.tenant, hits);
    var r := Tag(q.tenant, hits);
    forall x | x in r ensures x in Candidates(env, points, q) {
      var i :| 0 <= i < |r| && r[i] == x;
      assert hits[i] in hits;
    }
    forall x | x in Candidates(env, points, q)
      ensures x in r || (|r| == q.limit && forall y | y in r :: y.score >= x.score)
    {
      if i :| 0 <= i < |hits| && hits[i].id == x.id {
        assert hits[i] in hits && r[i] == x;
      } else {
        forall y | y in r ensures y.score >= x.score {
          var i :| 0 <= i < |r| && r[i] == y;
          assert hits[i] in hits;
        }
      }
    }
  }

  // ---- Merging ----

  function Flatten(tenants: seq<Tenant>, lists: map<Tenant, seq<Tagged>>): seq<Tagged>
    requires forall t | t in tenants :: t in lists
  {
    if tenants == [] then [] else
      Flatten(tenants[..|tenants| - 1], lists) + lists[tenants[|tenants| - 1]]
  }

  function Merge(tenants: seq<Tenant>, lists: map<Tenant, seq<Tagged>>, limit: nat): seq<Tagged>
    requires forall t | t in tenants :: t in lists
  {
    Slice(SortDesc(SCORE, Flatten(tenants, lists)), limit)
  }

  lemma {:induction false} FlattenSpec(tenants: seq<Tenant>, lists: map<Tenant, seq<Tagged>>)
    requires Distinct(tenants) && forall t | t in tenants :: t in lists
    requires forall t, x | t in tenants && x in lists[t] :: x.tenant == t
    requires forall t | t in tenants :: Distinct(lists[t])
    ensures Distinct(Flatten(tenants, lists))
    ensures forall x :: x in Flatten(tenants, lists) <==> x.tenant in tenants && x in lists[x.tenant]
  {
    if tenants == [] {
    } else {
      var rest, last := tenants[..|tenants| - 1], tenants[|tenants| - 1];
      assert tenants == rest + [last];
      FlattenSpec(rest, lists);
      assert last !in rest;
      var a, b := Flatten(rest, lists), lists[last];
      assert Flatten(tenants, lists) == a + b;
      forall i, j | 0 <= i < j < |a + b| ensures (a + b)[i] != (a + b)[j] {
        if i < |a| && j >= |a| {
          assert a[i] in a && b[j - |a|] in b;
        }
      }
    }
  }

  lemma {:induction false} ElemsBound<T>(s: seq<T>)
    ensures |Elems(s)| <= |s|
  {
    if s == [] {
    } else {
      ElemsBound(s[1..]);
      assert Elems(s) == Elems(s[1..]) + {s[0]};
    }
  }

  lemma {:induction false} SizeDistinct<T>(s: seq<T>)
    requires |Elems(s)| == |s|
    ensures Distinct(s)
  {
    if s == [] {
    } else {
      var rest := s[1..];
      assert Elems(s) == Elems(rest) + {s[0]};
      ElemsBound(rest);
      assert s[0] in rest ==> Elems(s) == Elems(rest);
      SizeDistinct(rest);
    }
  }

  lemma SortedDistinct(s: seq<Tagged>)
    requires Distinct(s)
    ensures Distinct(SortDesc(SCORE, s))
  {
    var r := SortDesc(SCORE, s);
    SortOrders(SCORE, s);
    SortMembers(SCORE, s);
    DistinctSize(s);
    assert Elems(r) == Elems(s);
    SizeDistinct(r);
  }

  // If a tenant filled its quota with hits no worse than x, nothing that made the cut is worse
  // than x: its `limit` hits would all come before it.
  lemma QuotaFillsTheCut(s: seq<Tagged>, own: seq<Tagged>, limit: nat, i: nat, x: real)
    requires Distinct(s) && Descending(SCORE, s) && Distinct(own) && |own| == limit
    requires forall y | y in own :: y in s && y.score >= x
    requires i < |s| && i < limit
    ensures s[i].score >= x
  {
    assert forall k | i < k < |s| :: SCORE(s[i]) >= SCORE(s[k]);
    if s[i].score < x {
      forall y | y in Elems(own) ensures y in Elems(s[..i]) {
        var k :| 0 <= k < |s| && s[k] == y;
        assert s[..i][k] == y;
      }
      DistinctSize(own);
      ElemsBound(s[..i]);
      SubsetSize(Elems(own), Elems(s[..i]));
    }
  }

  lemma AtLeastQuota(s: seq<Tagged>, own: seq<Tagged>)
    requires Distinct(own) && forall y | y in own :: y in s
    ensures |own| <= |s|
  {
    DistinctSize(own);
    ElemsBound(s);
    SubsetSize(Elems(own), Elems(s));
  }

  // What the cut keeps is no worse than any one tenant's candidate it leaves out.
  lemma CutBeats(s: seq<Tagged>, own: seq<Tagged>, candidates: set<Tagged>, limit: nat, x: Tagged)
    requires Distinct(s) && Descending(SCORE, s) && IsTop(own, limit, candidates) && x in candidates
    requires forall y | y in own :: y in s
    ensures var r := Slice(s, limit); x in r || (|r| == limit && forall y | y in r :: y.score >= x.score)
  {
    var r := Slice(s, limit);
    if x in own {
      var k :| 0 <= k < |s| && s[k] == x;
      if k < |r| {
        assert r[k] == x;
      } else {
        forall y | y in r ensures y.score >= x.score {
          var i :| 0 <= i < |r| && r[i] == y;
          assert SCORE(s[i]) >= SCORE(s[k]);
        }
      }
    } else {
      AtLeastQuota(s, own);
      forall y | y in r ensures y.score >= x.score {
        var i :| 0 <= i < |r| && r[i] == y;
        QuotaFillsTheCut(s, own, limit, i, x.score);
      }
    }
  }

  ghost function Union(tenants: seq<Tenant>, candidates: map<Tenant, set<Tagged>>): set<Tagged>
    requires forall t | t in tenants :: t in candidates
  {
    set t, x | t in tenants && x in candidates[t] :: x
  }

  lemma SortedAll(tenants: seq<Tenant>, lists: map<Tenant, seq<Tagged>>)
    requires Distinct(tenants) && forall t | t in tenants :: t in lists
    requires forall t, x | t in tenants && x in lists[t] :: x.tenant == t
    requires forall t | t in tenants :: Distinct(lists[t])
    ensures var s := SortDesc(SCORE, Flatten(tenants, lists));
      Distinct(s) && Descending(SCORE, s) && forall x :: x in s <==> x.tenant in tenants && x in lists[x.tenant]
  {
    hide Flatten, SortDesc;
    FlattenSpec(tenants, lists);
    SortOrders(SCORE, Flatten(tenants, lists));
    SortMembers(SCORE, Flatten(tenants, lists));
    SortedDistinct(Flatten(tenants, lists));
  }

  lemma SliceKeeps(s: seq<Tagged>, limit: nat)
    requires Distinct(s) && Descending(SCORE, s)
    ensures var r := Slice(s, limit);
      |r| <= limit && Distinct(r) && Descending(SCORE, r) && forall x | x in r :: x in s
  {
    var r := Slice(s, limit);
    assert r == s[..|r|];
    assert forall i, j | 0 <= i < j < |r| :: SCORE(s[i]) >= SCORE(s[j]);
  }

  // Concatenating the tenants' best lists, sorting and cutting gives a best selection over all
  // the tenants' candidates together.
  lemma MergeIsTop(tenants: seq<Tenant>, lists: map<Tenant, seq<Tagged>>, candidates: map<Tenant, set<Tagged>>,
                   limit: nat)
    requires Distinct(tenants) && forall t | t in tenants :: t in lists && t in candidates
    requires forall t | t in tenants :: IsTop(lists[t], limit, candidates[t])
    requires forall t, x | t in tenants && x in candidates[t] :: x.tenant == t
    ensures IsTop(Merge(tenants, lists, limit), limit, Union(tenants, candidates))
  {
    SortedAll(tenants, lists);
    var s, r := SortDesc(SCORE, Flatten(tenants, lists)), Merge(tenants, lists, limit);
    SliceKeeps(s, limit);
    hide Flatten, SortDesc, Slice, Descending, Distinct;
    forall x | x in Union(tenants, candidates)
      ensures x in r || (|r| == limit && forall y | y in r :: y.score >= x.score)
    {
      var t :| t in tenants && x in candidates[t];
      CutBeats(s, lists[t], candidates[t], limit, x);
    }
    forall x | x in r ensures x in Union(tenants, candidates) {
      assert x in s && x in candidates[x.tenant];
    }
  }

  // x comes before y: in an earlier tenant's list, or in the same list at an earlier place.
  ghost predicate Earlier(tenants: seq<Tenant>, lists: map<Tenant, seq<Tagged>>, x: Tagged, y: Tagged)
    requires forall t | t in tenants :: t in lists
  {
    exists a, b, p, q :: 0 <= a <= b < |tenants| && (a == b ==> p < q)
      && 0 <= p < |lists[tenants[a]]| && lists[tenants[a]][p] == x
      && 0 <= q < |lists[tenants[b]]| && lists[tenants[b]][q] == y
  }

  lemma EarlierStays(tenants: seq<Tenant>, lists: map<Tenant, seq<Tagged>>, x: Tagged, y: Tagged)
    requires tenants != [] && forall t | t in tenants :: t in lists
    requires Earlier(tenants[..|tenants| - 1], lists, x, y)
    ensures Earlier(tenants, lists, x, y)
  {
    var rest := tenants[..|tenants| - 1];
    var a, b, p, q :| 0 <= a <= b < |rest| && (a == b ==> p < q)
      && 0 <= p < |lists[rest[a]]| && lists[rest[a]][p] == x
      && 0 <= q < |lists[rest[b]]| && lists[rest[b]][q] == y;
    assert rest[a] == tenants[a] && rest[b] == tenants[b];
  }

  lemma {:induction false} FlattenMember(tenants: seq<Tenant>, lists: map<Tenant, seq<Tagged>>, x: Tagged)
    returns (a: nat, p: nat)
    requires (forall t | t in tenants :: t in lists) && x in Flatten(tenants, lists)
    ensures a < |tenants| && p < |lists[tenants[a]]| && lists[tenants[a]][p] == x
  {
    var n := |tenants| - 1;
    if x in Flatten(tenants[..n], lists) {
      a, p := FlattenMember(tenants[..n], lists, x);
    } else {
      a := n;
      p :| p < |lists[tenants[n]]| && lists[tenants[n]][p] == x;
    }
  }

  lemma {:induction false} FlattenOrder(tenants: seq<Tenant>, lists: map<Tenant, seq<Tagged>>, x: Tagged, y: Tagged)
    requires (forall t | t in tenants :: t in lists) && Precedes(Flatten(tenants, lists), x, y)
    ensures Earlier(tenants, lists, x, y)
  {
    var n := |tenants| - 1;
    var rest, t := tenants[..n], tenants[n];
    assert tenants == rest + [t];
    var a := Flatten(rest, lists);
    var i, j :| 0 <= i < j < |a + lists[t]| && (a + lists[t])[i] == x && (a + lists[t])[j] == y;
    if j < |a| {
      assert Precedes(a, x, y);
      FlattenOrder(rest, lists, x, y);
      EarlierStays(tenants, lists, x, y);
    } else if i < |a| {
      var k, p := FlattenMember(rest, lists, x);
      assert tenants[k] == rest[k] && lists[tenants[n]][j - |a|] == y;
    } else {
      assert lists[tenants[n]][i - |a|] == x && lists[tenants[n]][j - |a|] == y;
    }
  }

  // Of two merged hits with the same score, the one of the earlier tenant comes first, and of one
  // tenant's hits the one its index put first.
  lemma TiesKeepTheirOrder(tenants: seq<Tenant>, lists: map<Tenant, seq<Tagged>>, limit: nat, i: nat, j: nat)
    requires forall t | t in tenants :: t in lists
    requires i < j < |Merge(tenants, lists, limit)|
    requires Merge(tenants, lists, limit)[i].score == Merge(tenants, lists, limit)[j].score
    ensures Earlier(tenants, lists, Merge(tenants, lists, limit)[i], Merge(tenants, lists, limit)[j])
  {
    hide Earlier, SortDesc;
    var flat, r := Flatten(tenants, lists), Merge(tenants, lists, limit);
    assert Precedes(SortDesc(SCORE, flat), r[i], r[j]);
    SortKeepsTies(SCORE, flat, r[i], r[j]);
    FlattenOrder(tenants, lists, r[i], r[j]);
  }

  // ---- Asking every tenant ----

  datatype Ask = Ask(query: string, user: Option<string>, agent: Option<string>, memoryType: Option<string>,
                     limit: nat, minScore: real)

  function QueryFor(env: Env, a: Ask, tenant: Tenant): Query {
    Query(env.embed(a.query), a.limit, a.user, a.agent, a.memoryType, a.minScore, tenant)
  }

  function PointsOf(points: map<Tenant, map<Id, Point>>, tenant: Tenant): map<Id, Point> {
    if tenant in points then points[tenant] else map[]
  }

  // A tenant whose search fails contributes nothing.
  function ListOf(env: Env, points: map<Tenant, map<Id, Point>>, a: Ask, failing: set<Tenant>,
                  tenant: Tenant): seq<Tagged> {
    if tenant in failing then [] else
      Tag(tenant, env.index(PointsOf(points, tenant), QueryFor(env, a, tenant)))
  }

  ghost function CandidatesOf(env: Env, points: map<Tenant, map<Id, Point>>, a: Ask, failing: set<Tenant>,
                              tenant: Tenant)
    : set<Tagged>
  {
    if tenant in failing then {} else Candidates(env, PointsOf(points, tenant), QueryFor(env, a, tenant))
  }

  function Merged(env: Env, points: map<Tenant, map<Id, Point>>, a: Ask, tenants: seq<Tenant>, failing: set<Tenant>)
    : seq<Tagged>
  {
    Merge(tenants, map t | t in tenants :: ListOf(env, points, a, failing, t), a.limit)
  }

  ghost function AllCandidates(env: Env, points: map<Tenant, map<Id, Point>>, a: Ask, tenants: seq<Tenant>,
                               failing: set<Tenant>): set<Tagged> {
    Union(tenants, map t | t in tenants :: CandidatesOf(env, points, a, failing, t))
  }

  lemma OneTenantTop(env: Env, points: map<Tenant, map<Id, Point>>, a: Ask, failing: set<Tenant>, tenant: Tenant)
    requires ExactIndex(env)
    ensures IsTop(ListOf(env, points, a, failing, tenant), a.limit, CandidatesOf(env, points, a, failing, tenant))
    ensures forall x | x in CandidatesOf(env, points, a, failing, tenant) :: x.tenant == tenant
  {
    var own, q := PointsOf(points, tenant), QueryFor(env, a, tenant);
    assert ExactAnswer(env, own, q, env.index(own, q));
    ExactAnswerIsTop(env, own, q, env.index(own, q));
  }

  // With an exact index per tenant, the merged list is a best selection over every answering
  // tenant's eligible points.
  lemma MergedIsTop(env: Env, points: map<Tenant, map<Id, Point>>, a: Ask, tenants: seq<Tenant>, failing: set<Tenant>)
    requires ExactIndex(env) && Distinct(tenants)
    ensures IsTop(Merged(env, points, a, tenants, failing), a.limit, AllCandidates(env, points, a, tenants, failing))
  {
    hide ListOf, CandidatesOf, IsTop, ExactIndex, Merge, Union;
    var lists := map t | t in tenants :: ListOf(env, points, a, failing, t);
    var candidates := map t | t in tenants :: CandidatesOf(env, points, a, failing, t);
    forall t | t in tenants
      ensures IsTop(lists[t], a.limit, candidates[t])
      ensures forall x: Tagged | x in candidates[t] :: x.tenant == t
    {
      OneTenantTop(env, points, a, failing, t);
    }
    MergeIsTop(tenants, lists, candidates, a.limit);
  }

  lemma MatchesIff(p: Point, q: Query)
    ensures Matches(p, q) <==>
      && (q.user == None || q.user.value == "" || q.user.value == p.user)
      && (q.agent == None || q.agent.value == "" || q.agent == p.agent)
      && (q.memoryType == None || q.memoryType.value == "" || q.memoryType.value == p.memoryType)
      && p.tenant == q.tenant
  {
  }

  lemma OwnCandidateIff(env: Env, points: map<Id, Point>, q: Query, x: Tagged)
    ensures x in Candidates(env, points, q) <==>
      && x.tenant == q.tenant && x.id in points
      && (var p := points[x.id];
          && (q.user == None || q.user.value == "" || q.user.value == p.user)
          && (q.agent == None || q.agent.value == "" || q.agent == p.agent)
          && (q.memoryType == None || q.memoryType.value == "" || q.memoryType.value == p.memoryType)
          && p.tenant == q.tenant
          && x.score == env.sim(q.vector, p.vector) && x.score >= q.minScore)
  {
    if x.id in points {
      MatchesIff(points[x.id], q);
      hide Matches;
      var own := Tagged(x.id, env.sim(q.vector, points[x.id].vector), q.tenant);
      if Eligible(env, points[x.id], q) {
        assert own in Candidates(env, points, q);
      }
    }
  }

  // The candidates, told by the points: of an answering tenant, matching every filter that is given
  // and not empty, at least as close as asked for, and scored by the similarity to the query.
  lemma CandidateIff(env: Env, points: map<Tenant, map<Id, Point>>, a: Ask, tenants: seq<Tenant>, failing: set<Tenant>,
                     x: Tagged)
    ensures x in AllCandidates(env, points, a, tenants, failing) <==>
      && x.tenant in tenants && x.tenant !in failing && x.tenant in points && x.id in points[x.tenant]
      && (var p := points[x.tenant][x.id];
          && (a.user == None || a.user.value == "" || a.user.value == p.user)
          && (a.agent == None || a.agent.value == "" || a.agent == p.agent)
          && (a.memoryType == None || a.memoryType.value == "" || a.memoryType.value == p.memoryType)
          && p.tenant == x.tenant
          && x.score == env.sim(env.embed(a.query), p.vector) && x.score >= a.minScore)
  {
    var all := map t | t in tenants :: CandidatesOf(env, points, a, failing, t);
    OwnCandidateIff(env, PointsOf(points, x.tenant), QueryFor(env, a, x.tenant), x);
    if x in AllCandidates(env, points, a, tenants, failing) {
      var t :| t in tenants && x in all[t];
      assert x.tenant == t;
    } else if x.tenant in tenants {
      assert x !in all[x.tenant];
    }
  }

  // ---- Hydration by bare id ----

  // One result: a memory (named by the tenant whose row it is) shown for a merged hit.
  datatype Found = Found(owner: Tenant, hit: Tagged)

  predicate LiveIn(rows: map<Tenant, map<Id, Memory>>, tenant: Tenant, id: Id, now: Time) {
    tenant in rows && id in rows[tenant] && Live(rows[tenant][id], now)
  }

  function IdsOf(flat: seq<Tagged>, tenant: Tenant): set<Id> {
    set x | x in flat && x.tenant == tenant :: x.id
  }

  // The tenants of the hits, in order of first appearance.
  function Groups(flat: seq<Tagged>): seq<Tenant> {
    if flat == [] then [] else
      var rest, last := Groups(flat[..|flat| - 1]), flat[|flat| - 1].tenant;
      if last in rest then rest else rest + [last]
  }

  // One tenant's live rows among the ids, as entries of the map by bare id.
  function LiveGroup(rows: map<Tenant, map<Id, Memory>>, tenant: Tenant, ids: set<Id>, now: Time): map<Id, Tenant> {
    map id | id in ids && LiveIn(rows, tenant, id, now) :: tenant
  }

  // Which tenant's row each bare id ends up standing for: the last group that has it live.
  function Owners(groups: seq<Tenant>, flat: seq<Tagged>, rows: map<Tenant, map<Id, Memory>>, now: Time)
    : map<Id, Tenant>
  {
    if groups == [] then map[] else
      var t := groups[|groups| - 1];
      Owners(groups[..|groups| - 1], flat, rows, now) + LiveGroup(rows, t, IdsOf(flat, t), now)
  }

  function Paired(flat: seq<Tagged>, owners: map<Id, Tenant>): seq<Found> {
    if flat == [] then [] else
      var last := flat[|flat| - 1];
      Paired(flat[..|flat| - 1], owners) + (if last.id in owners then [Found(owners[last.id], last)] else [])
  }

  lemma {:induction false} GroupsSpec(flat: seq<Tagged>)
    ensures forall t :: t in Groups(flat) <==> exists x :: x in flat && x.tenant == t
  {
    if flat == [] {
    } else {
      GroupsSpec(flat[..|flat| - 1]);
      assert flat == flat[..|flat| - 1] + [flat[|flat| - 1]];
    }
  }

  lemma {:induction false} OwnersSpec(groups: seq<Tenant>, flat: seq<Tagged>, rows: map<Tenant, map<Id, Memory>>,
                                      now: Time, id: Id)
    ensures var owners := Owners(groups, flat, rows, now);
      && (id in owners ==>
          (owners[id] in groups && id in IdsOf(flat, owners[id]) && LiveIn(rows, owners[id], id, now)))
      && (forall t | t in groups && id in IdsOf(flat, t) && LiveIn(rows, t, id, now) :: id in owners)
  {
    if groups == [] {
    } else {
      var rest, t := groups[..|groups| - 1], groups[|groups| - 1];
      OwnersSpec(rest, flat, rows, now, id);
      assert groups == rest + [t];
    }
  }

  function Results(flat: seq<Tagged>, rows: map<Tenant, map<Id, Memory>>, now: Time): seq<Found> {
    Paired(flat, Owners(Groups(flat), flat, rows, now))
  }

  // What the caller should get: the live hits, each with its own tenant's memory.
  function LiveHits(flat: seq<Tagged>, rows: map<Tenant, map<Id, Memory>>, now: Time): seq<Found> {
    if flat == [] then [] else
      var last := flat[|flat| - 1];
      LiveHits(flat[..|flat| - 1], rows, now)
        + (if LiveIn(rows, last.tenant, last.id, now) then [Found(last.tenant, last)] else [])
  }

  // Two tenants hit under the same id, and at least one of the two has a live row.
  ghost predicate Collide(flat: seq<Tagged>, rows: map<Tenant, map<Id, Memory>>, now: Time) {
    exists x, y :: x in flat && y in flat && x.id == y.id && x.tenant != y.tenant && LiveIn(rows, y.tenant, y.id, now)
  }

  lemma OwnersRight(flat: seq<Tagged>, rows: map<Tenant, map<Id, Memory>>, now: Time, x: Tagged)
    requires x in flat && !Collide(flat, rows, now)
    ensures var owners := Owners(Groups(flat), flat, rows, now);
      (x.id in owners <==> LiveIn(rows, x.tenant, x.id, now)) && (x.id in owners ==> owners[x.id] == x.tenant)
  {
    var owners := Owners(Groups(flat), flat, rows, now);
    OwnersSpec(Groups(flat), flat, rows, now, x.id);
    GroupsSpec(flat);
    if x.id in owners {
      assert x.id in IdsOf(flat, owners[x.id]);
      var y :| y in flat && y.tenant == owners[x.id] && y.id == x.id;
    }
    if LiveIn(rows, x.tenant, x.id, now) {
      assert x.tenant in Groups(flat) && x.id in IdsOf(flat, x.tenant);
    }
  }

  lemma {:induction false} PairedRight(flat: seq<Tagged>, all: seq<Tagged>, rows: map<Tenant, map<Id, Memory>>,
                                       now: Time)
    requires !Collide(all, rows, now) && forall x | x in flat :: x in all
    ensures Paired(flat, Owners(Groups(all), all, rows, now)) == LiveHits(flat, rows, now)
  {
    if flat == [] {
    } else {
      PairedRight(flat[..|flat| - 1], all, rows, now);
      OwnersRight(all, rows, now, flat[|flat| - 1]);
    }
  }

  lemma {:induction false} PairedMembers(flat: seq<Tagged>, owners: map<Id, Tenant>)
    ensures forall x | x in flat && x.id in owners :: Found(owners[x.id], x) in Paired(flat, owners)
  {
    if flat == [] {
    } else {
      PairedMembers(flat[..|flat| - 1], owners);
      assert flat == flat[..|flat| - 1] + [flat[|flat| - 1]];
    }
  }

  lemma {:induction false} LiveHitsOwn(flat: seq<Tagged>, rows: map<Tenant, map<Id, Memory>>, now: Time)
    ensures forall f | f in LiveHits(flat, rows, now) :: f.owner == f.hit.tenant
  {
    if flat == [] {
    } else {
      LiveHitsOwn(flat[..|flat| - 1], rows, now);
    }
  }

  // Hydration drops only dead hits, keeps the order, and pairs every memory with its own
  // tenant, exactly when no two tenants are hit under one id of which one is live.
  lemma HydrationRightIff(flat: seq<Tagged>, rows: map<Tenant, map<Id, Memory>>, now: Time)
    ensures Results(flat, rows, now) == LiveHits(flat, rows, now) <==> !Collide(flat, rows, now)
  {
    if !Collide(flat, rows, now) {
      PairedRight(flat, flat, rows, now);
    } else {
      var x, y :| x in flat && y in flat && x.id == y.id && x.tenant != y.tenant && LiveIn(rows, y.tenant, y.id, now);
      var owners := Owners(Groups(flat), flat, rows, now);
      OwnersSpec(Groups(flat), flat, rows, now, x.id);
      GroupsSpec(flat);
      assert y.tenant in Groups(flat) && y.id in IdsOf(flat, y.tenant);
      PairedMembers(flat, owners);
      LiveHitsOwn(flat, rows, now);
      var wrong := if owners[x.id] == x.tenant then y else x;
      assert Found(owners[wrong.id], wrong) in Results(flat, rows, now);
      assert Found(owners[wrong.id], wrong) !in LiveHits(flat, rows, now);
    }
  }

  // ---- What is shown when tenants collide ----

  // The first hit of tenant t comes before every hit of tenant u.
  ghost predicate AppearsFirst(flat: seq<Tagged>, t: Tenant, u: Tenant) {
    exists i :: 0 <= i < |flat| && flat[i].tenant == t && forall j | 0 <= j <= i :: flat[j].tenant != u
  }

  lemma {:induction false} GroupsInOrder(flat: seq<Tagged>, g: nat, h: nat)
    requires g < h < |Groups(flat)|
    ensures AppearsFirst(flat, Groups(flat)[g], Groups(flat)[h])
  {
    var n := |flat| - 1;
    var rest, t, u := flat[..n], Groups(flat)[g], Groups(flat)[h];
    GroupsSpec(rest);
    if h < |Groups(rest)| {
      GroupsInOrder(rest, g, h);
      var i :| 0 <= i < |rest| && rest[i].tenant == t && forall j | 0 <= j <= i :: rest[j].tenant != u;
      assert flat[i].tenant == t && forall j | 0 <= j <= i :: flat[j] == rest[j];
    } else {
      assert t in Groups(rest);
      var x :| x in rest && x.tenant == t;
      var i :| 0 <= i < |rest| && rest[i] == x;
      forall j | 0 <= j <= i ensures flat[j].tenant != u {
        assert flat[j] == rest[j] && rest[j] in rest;
      }
      assert flat[i].tenant == t;
    }
  }

  lemma {:induction false} LastOwnerWins(groups: seq<Tenant>, flat: seq<Tagged>, rows: map<Tenant, map<Id, Memory>>,
                                         now: Time, id: Id) returns (g: nat)
    requires id in Owners(groups, flat, rows, now)
    ensures g < |groups| && Owners(groups, flat, rows, now)[id] == groups[g]
    ensures forall h | g < h < |groups| :: !(id in IdsOf(flat, groups[h]) && LiveIn(rows, groups[h], id, now))
  {
    var n := |groups| - 1;
    if id in IdsOf(flat, groups[n]) && LiveIn(rows, groups[n], id, now) {
      g := n;
    } else {
      g := LastOwnerWins(groups[..n], flat, rows, now, id);
      assert forall h | g < h < n :: groups[h] == groups[..n][h];
    }
  }

  // For an id that several tenants are hit under, every hit is shown with one and the same memory: of
  // the tenants that have the id live, that of the tenant whose hits begin last in the merged list.
  lemma CollisionShows(flat: seq<Tagged>, rows: map<Tenant, map<Id, Memory>>, now: Time, x: Tagged, y: Tagged)
    requires x in flat && y in flat && x.id == y.id && LiveIn(rows, y.tenant, y.id, now)
    ensures var owners := Owners(Groups(flat), flat, rows, now);
      x.id in owners && Found(owners[x.id], x) in Results(flat, rows, now)
      && LiveIn(rows, owners[x.id], x.id, now)
      && (y.tenant == owners[x.id] || AppearsFirst(flat, y.tenant, owners[x.id]))
  {
    var groups := Groups(flat);
    GroupsSpec(flat);
    assert y.tenant in groups && y.id in IdsOf(flat, y.tenant);
    OwnersSpec(groups, flat, rows, now, x.id);
    PairedMembers(flat, Owners(groups, flat, rows, now));
    var g := LastOwnerWins(groups, flat, rows, now, x.id);
    var h :| 0 <= h < |groups| && groups[h] == y.tenant;
    if h < g {
      GroupsInOrder(flat, h, g);
    }
  }

  lemma {:induction false} PairedFromFlat(flat: seq<Tagged>, owners: map<Id, Tenant>, i: nat)
    requires i < |Paired(flat, owners)|
    ensures var f := Paired(flat, owners)[i]; f.hit in flat && f.hit.id in owners && f.owner == owners[f.hit.id]
  {
    var n := |flat| - 1;
    if i < |Paired(flat[..n], owners)| {
      PairedFromFlat(flat[..n], owners, i);
    }
  }

  // The results are the hits whose id somebody owns, in the order of the merged list.
  lemma {:induction false} PairedInOrder(flat: seq<Tagged>, owners: map<Id, Tenant>, i: nat, j: nat)
    requires i < j < |Paired(flat, owners)|
    ensures Precedes(flat, Paired(flat, owners)[i].hit, Paired(flat, owners)[j].hit)
  {
    var n := |flat| - 1;
    var rest := Paired(flat[..n], owners);
    if j < |rest| {
      PairedInOrder(flat[..n], owners, i, j);
      var k, l :| 0 <= k < l < n && flat[..n][k] == rest[i].hit && flat[..n][l] == rest[j].hit;
      assert flat[k] == rest[i].hit && flat[l] == rest[j].hit;
    } else {
      PairedFromFlat(flat[..n], owners, i);
      var k :| 0 <= k < n && flat[..n][k] == rest[i].hit;
      assert flat[k] == rest[i].hit && flat[n] == Paired(flat, owners)[j].hit;
    }
  }
}
