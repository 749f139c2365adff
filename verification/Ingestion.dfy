// Smart ingestion (mypalace/retrieval/ingestion.py): the contradiction heuristic and what one
// candidate memory, and a batch of them, does to a tenant's space.
module Ingestion {
  import opened Prelude
  import opened MemoryModel

  const SKIP_THRESHOLD := 0.95
  const UPDATE_THRESHOLD := 0.75
  const CONTRADICTION_CONFIDENCE := 0.7

  const NEGATION_TOKENS := {"not", "no", "never", "n't", "none", "nothing", "stopped", "quit", "former",
                            "ex", "longer", "anymore", "any-more"}

  datatype Verdict = Verdict(contradicts: bool, confidence: real, why: string)

  function Signal(env: Env, text: string): set<string> { env.tokens(text) - NEGATION_TOKENS }

  function Smaller(a: nat, b: nat): nat { if b < a then b else a }

  function Confidence(overlap: nat, smaller: nat): real {
    var ratio := overlap as real / (if smaller > 1 then smaller else 1) as real;
    if ratio < 1.0 then ratio else 1.0
  }

  function CompareSignals(a: set<string>, b: set<string>): Verdict {
    if a == {} || b == {} then Verdict(false, 0.0, "no signal tokens")
    else
      var overlap := |a * b|;
      var confidence := Confidence(overlap, Smaller(|a|, |b|));
      if overlap < 2 then Verdict(false, confidence, "insufficient subject overlap")
      else Verdict(true, confidence, "negation:overlap")
  }

  function CheckContradiction(env: Env, oldText: string, newText: string): Verdict {
    if env.negated(oldText) == env.negated(newText) then Verdict(false, 0.0, "no negation asymmetry")
    else if env.tokens(oldText) == {} || env.tokens(newText) == {} then Verdict(false, 0.0, "insufficient content")
    else
      CompareSignals(Signal(env, oldText), Signal(env, newText))
  }

  lemma ConfidenceRange(overlap: nat, smaller: nat)
    ensures 0.0 <= Confidence(overlap, smaller) <= 1.0
  {
  }

  lemma CompareSymmetric(a: set<string>, b: set<string>)
    ensures CompareSignals(a, b) == CompareSignals(b, a)
    ensures 0.0 <= CompareSignals(a, b).confidence <= 1.0
  {
    hide Confidence;
    assert a * b == b * a;
    ConfidenceRange(|a * b|, Smaller(|a|, |b|));
  }

  // The heuristic does not care which text is the old one, and its confidence is a fraction.
  lemma ContradictionSymmetric(env: Env, a: string, b: string)
    ensures CheckContradiction(env, a, b) == CheckContradiction(env, b, a)
    ensures 0.0 <= CheckContradiction(env, a, b).confidence <= 1.0
  {
    hide CompareSignals, Signal;
    CompareSymmetric(Signal(env, a), Signal(env, b));
  }

  lemma Quotient(x: real, y: real, q: real)
    requires y > 0.0 && q == x / y
    ensures q > 0.7 <==> x > 0.7 * y
  {
    assert q * y == x;
    if q > 0.7 {
      MulStrict(0.7, q, y);
    } else if q < 0.7 {
      MulStrict(q, 0.7, y);
    }
  }

  lemma Fraction(n: nat, d: nat)
    requires d > 0
    ensures Confidence(n, d) > CONTRADICTION_CONFIDENCE <==> 10 * n > 7 * d
  {
    Quotient(n as real, d as real, n as real / d as real);
    assert n as real > 0.7 * d as real <==> 10 * n > 7 * d;
  }

  // A confident contradiction: exactly one side is negated, and more than seven tenths of the
  // shorter side's words, at least two of them, are shared.
  lemma ConfidentContradictionIff(env: Env, a: string, b: string)
    ensures var v := CheckContradiction(env, a, b);
      var shared := |Signal(env, a) * Signal(env, b)|;
      (v.contradicts && v.confidence > CONTRADICTION_CONFIDENCE) <==>
      && env.negated(a) != env.negated(b)
      && shared >= 2
      && 10 * shared > 7 * Smaller(|Signal(env, a)|, |Signal(env, b)|)
  {
    var x, y := Signal(env, a), Signal(env, b);
    SubsetSize(x * y, x);
    SubsetSize(x * y, y);
    var shared, smaller := |x * y|, Smaller(|x|, |y|);
    if env.negated(a) != env.negated(b) && shared >= 2 {
      assert x * y != {};
      var w :| w in x * y;
      assert w in env.tokens(a) && w in env.tokens(b);
      Fraction(shared, smaller);
    }
  }

  // ---- Candidates ----

  datatype Candidate = Candidate(content: string, importance: Option<real>, extra: Meta)

  // What one call shares over its candidates.
  datatype Batch = Batch(user: string, agent: Option<string>, memoryType: string, source: Option<string>,
                         base: Meta, now: Time)

  datatype Fate =
    | Skipped(reason: string, similarity: real)
    | Written(id: Id)
    | Replaced(id: Id, oldId: Id, similarity: real)

  function NewFrom(b: Batch, c: Candidate): NewMemory {
    var merged := b.base + c.extra;
    NewMemory(b.user, c.content, b.memoryType, b.agent, b.source,
              if c.importance.Some? then c.importance.value else 1.0,
              if merged == map[] then None else Some(merged), None)
  }

  function Nearest(env: Env, s: Space, tenant: Tenant, b: Batch, content: string): seq<Hit> {
    env.index(s.points, Query(env.embed(content), 1, Some(b.user), b.agent, None, 0.0, tenant))
  }

  datatype Decision =
    | Duplicate(similarity: real)
    | Redundant(existing: Id, similarity: real)
    | Contradicts(existing: Id, similarity: real, why: string)
    | Novel

  // What to do with a candidate, judged by its nearest neighbour.
  function Judge(env: Env, s: Space, tenant: Tenant, b: Batch, c: Candidate): Decision {
    var hits := Nearest(env, s, tenant, b, c.content);
    if hits != [] && hits[0].score > SKIP_THRESHOLD then Duplicate(hits[0].score)
    else if hits != [] && hits[0].score > UPDATE_THRESHOLD && Has(s, tenant, hits[0].id) then
      var v := CheckContradiction(env, s.rows[hits[0].id].content, c.content);
      if v.contradicts && v.confidence > CONTRADICTION_CONFIDENCE then Contradicts(hits[0].id, hits[0].score, v.why)
      else Redundant(hits[0].id, hits[0].score)
    else Novel
  }

  function CarryOut(env: Env, s: Space, tenant: Tenant, b: Batch, c: Candidate, id: Id, d: Decision): Space {
    match d
    case Duplicate(_) => s
    case Redundant(existing, _) => Touch(s, {existing}, b.now)
    case Contradicts(existing, similarity, why) =>
      RecordSupersession(Create(env, Touch(s, {existing}, b.now), tenant, id, NewFrom(b, c), b.now),
                         tenant, existing, id, b.user, "contradiction:" + why, Some(similarity))
    case Novel => Create(env, s, tenant, id, NewFrom(b, c), b.now)
  }

  function FateOf(d: Decision, id: Id): Fate {
    match d
    case Duplicate(similarity) => Skipped("duplicate", similarity)
    case Redundant(_, similarity) => Skipped("similar", similarity)
    case Contradicts(existing, similarity, _) => Replaced(id, existing, similarity)
    case Novel => Written(id)
  }

  // One candidate: skipped, written, or written in place of a memory it contradicts. `id` is
  // the id a new memory would get.
  function IngestOne(env: Env, s: Space, tenant: Tenant, b: Batch, c: Candidate, id: Id): (Space, Fate) {
    var d := Judge(env, s, tenant, b, c);
    (CarryOut(env, s, tenant, b, c, id, d), FateOf(d, id))
  }

  // One text is negated and the other is not, and of the words that carry meaning they share two
  // or more, and more than seven tenths of those of one side.
  predicate Opposed(env: Env, a: string, b: string) {
    var x, y := env.tokens(a) - NEGATION_TOKENS, env.tokens(b) - NEGATION_TOKENS;
    && env.negated(a) != env.negated(b)
    && |x * y| >= 2
    && (10 * |x * y| > 7 * |x| || 10 * |x * y| > 7 * |y|)
  }

  // The rows after the one with this id was read.
  function ReadOnce(rows: map<Id, Memory>, id: Id, now: Time): map<Id, Memory>
    requires id in rows
  {
    rows[id := rows[id].(accessCount := rows[id].accessCount + 1, accessedAt := Some(now))]
  }

  lemma OpposedIff(env: Env, a: string, b: string)
    ensures var v := CheckContradiction(env, a, b);
      && (Opposed(env, a, b) <==> v.contradicts && v.confidence > CONTRADICTION_CONFIDENCE)
      && (v.contradicts ==> v.why == "negation:overlap")
  {
    ConfidentContradictionIff(env, a, b);
    hide Confidence;
  }

  // The fate of a candidate, told by its nearest hit's score and the two texts.
  lemma FateIff(env: Env, s: Space, tenant: Tenant, b: Batch, c: Candidate, id: Id)
    ensures var hits := env.index(s.points, Query(env.embed(c.content), 1, Some(b.user), b.agent, None, 0.0, tenant));
      var fate := IngestOne(env, s, tenant, b, c, id).1;
      if hits == [] then fate == Written(id) else
        var near, score := hits[0].id, hits[0].score;
        var stored := near in s.rows && s.rows[near].tenant == tenant;
        && (fate == Skipped("duplicate", score) <==> score > 0.95)
        && (fate == Replaced(id, near, score) <==>
              0.75 < score <= 0.95 && stored && Opposed(env, s.rows[near].content, c.content))
        && (fate == Skipped("similar", score) <==>
              0.75 < score <= 0.95 && stored && !Opposed(env, s.rows[near].content, c.content))
        && (fate == Written(id) <==> score <= 0.75 || (score <= 0.95 && !stored))
  {
    hide CheckContradiction, Opposed, CarryOut;
    var hits := env.index(s.points, Query(env.embed(c.content), 1, Some(b.user), b.agent, None, 0.0, tenant));
    if hits != [] && hits[0].id in s.rows {
      OpposedIff(env, s.rows[hits[0].id].content, c.content);
    }
  }

  // The row and the vector of a candidate that is written: the call's user, agent, type and source,
  // the candidate's text and importance (one if it has none), and the call's metadata overridden by
  // the candidate's own, or none at all if both are empty.
  predicate RowOf(env: Env, tenant: Tenant, b: Batch, c: Candidate, m: Memory, p: Point) {
    && m.tenant == tenant && m.user == b.user && m.agent == b.agent && m.content == c.content
    && m.memoryType == b.memoryType && m.source == b.source
    && m.importance == (if c.importance == None then 1.0 else c.importance.value)
    && (m.metadata == None <==> b.base == map[] && c.extra == map[])
    && (m.metadata != None ==>
          && m.metadata.value.Keys == b.base.Keys + c.extra.Keys
          && forall k | k in m.metadata.value ::
               m.metadata.value[k] == if k in c.extra then c.extra[k] else b.base[k])
    && m.createdAt == m.updatedAt == b.now && m.accessedAt == None && m.accessCount == 0 && m.expiresAt == None
    && p == Point(env.embed(c.content), tenant, b.user, b.agent, b.memoryType)
  }

  lemma NewFromText(b: Batch, c: Candidate)
    ensures NewFrom(b, c).content == c.content && NewFrom(b, c).user == b.user
  {
  }

  lemma NewFromRow(env: Env, tenant: Tenant, b: Batch, c: Candidate)
    ensures RowOf(env, tenant, b, c, Row(tenant, NewFrom(b, c), b.now),
                  PointFor(env, tenant, c.content, Row(tenant, NewFrom(b, c), b.now)))
  {
    var merged := b.base + c.extra;
    assert merged.Keys == b.base.Keys + c.extra.Keys;
    if b.base != map[] {
      var k :| k in b.base;
      assert k in merged;
    } else if c.extra != map[] {
      var k :| k in c.extra;
      assert k in merged;
    }
  }

  // The candidate's row, vector and first version, added to given rows and nothing else.
  predicate AddsCandidate(env: Env, s: Space, rows: map<Id, Memory>, tenant: Tenant, b: Batch, c: Candidate, id: Id,
                          e: Space) {
    && id in e.rows && id in e.points && RowOf(env, tenant, b, c, e.rows[id], e.points[id])
    && e.rows == rows[id := e.rows[id]] && e.points == s.points[id := e.points[id]]
    && s.versions + [Version(id, tenant, b.user, 1, c.content, e.rows[id].metadata, Created)] <= e.versions
  }

  lemma CreateAdds(env: Env, s: Space, tenant: Tenant, b: Batch, c: Candidate, id: Id)
    ensures var e := Create(env, s, tenant, id, NewFrom(b, c), b.now);
      && AddsCandidate(env, s, s.rows, tenant, b, c, id, e)
      && |e.versions| == |s.versions| + 1 && e.supersessions == s.supersessions
  {
    hide NewFrom, RowOf;
    NewFromRow(env, tenant, b, c);
    var what := NewFrom(b, c);
    assert what.content == c.content && what.user == b.user by {
      NewFromText(b, c);
    }
    var e := Create(env, s, tenant, id, what, b.now);
    assert e.rows[id] == Row(tenant, what, b.now);
  }

  lemma ReadIsTouch(s: Space, id: Id, now: Time)
    requires id in s.rows
    ensures Touch(s, {id}, now) == s.(rows := ReadOnce(s.rows, id, now))
  {
    assert Touch(s, {id}, now).rows == ReadOnce(s.rows, id, now);
  }

  // The candidate added in place of a memory it contradicts: that one is read, and its place in the
  // logs is that of a memory superseded for its contradiction at this similarity.
  predicate Replaces(env: Env, s: Space, tenant: Tenant, b: Batch, c: Candidate, id: Id, near: Id, score: real,
                     e: Space) {
    && near in s.rows
    && AddsCandidate(env, s, ReadOnce(s.rows, near, b.now), tenant, b, c, id, e)
    && e.supersessions == s.supersessions
         + [Supersession(near, id, b.user, "contradiction:negation:overlap", Some(score))]
    && |e.versions| == |s.versions| + 2
    && e.versions[|s.versions| + 1] ==
         Version(near, tenant, b.user, MaxNumber(e.versions[..|s.versions| + 1], near) + 1, s.rows[near].content,
                 s.rows[near].metadata, Superseded)
  }

  lemma RecordReplaces(env: Env, s: Space, read: Space, tenant: Tenant, b: Batch, c: Candidate, id: Id, near: Id,
                       score: real)
    requires id !in s.rows && near in s.rows && read == s.(rows := ReadOnce(s.rows, near, b.now))
    ensures var made := Create(env, read, tenant, id, NewFrom(b, c), b.now);
      Replaces(env, s, tenant, b, c, id, near, score,
               RecordSupersession(made, tenant, near, id, b.user, "contradiction:negation:overlap", Some(score)))
  {
    CreateAdds(env, read, tenant, b, c, id);
    hide Create, NewFrom, RowOf, MaxNumber;
    var made := Create(env, read, tenant, id, NewFrom(b, c), b.now);
    var e := RecordSupersession(made, tenant, near, id, b.user, "contradiction:negation:overlap", Some(score));
    assert e.versions[..|s.versions| + 1] == made.versions;
  }

  lemma JudgedContradiction(env: Env, s: Space, tenant: Tenant, b: Batch, c: Candidate, id: Id, d: Decision)
    requires id !in s.rows && d == Judge(env, s, tenant, b, c) && d.Contradicts?
    ensures Replaces(env, s, tenant, b, c, id, d.existing, d.similarity, CarryOut(env, s, tenant, b, c, id, d))
  {
    hide CheckContradiction, Create, RecordSupersession, Replaces, Nearest, NewFrom, Opposed;
    OpposedIff(env, s.rows[d.existing].content, c.content);
    assert "contradiction:" + d.why == "contradiction:negation:overlap";
    ReadIsTouch(s, d.existing, b.now);
    RecordReplaces(env, s, Touch(s, {d.existing}, b.now), tenant, b, c, id, d.existing, d.similarity);
  }

  // What the candidate leaves behind, fate by fate. Only a nearest hit that is looked up is read.
  lemma FateWrites(env: Env, s: Space, tenant: Tenant, b: Batch, c: Candidate, id: Id)
    requires id !in s.rows
    ensures var (e, fate) := IngestOne(env, s, tenant, b, c, id);
      var hits := env.index(s.points, Query(env.embed(c.content), 1, Some(b.user), b.agent, None, 0.0, tenant));
      match fate
      case Skipped(reason, _) =>
        if reason == "duplicate" then e == s
        else hits != [] && hits[0].id in s.rows && e == s.(rows := ReadOnce(s.rows, hits[0].id, b.now))
      case Written(_) =>
        && AddsCandidate(env, s, s.rows, tenant, b, c, id, e)
        && |e.versions| == |s.versions| + 1 && e.supersessions == s.supersessions
      case Replaced(_, near, score) =>
        hits != [] && hits[0] == Hit(near, score) && Replaces(env, s, tenant, b, c, id, near, score, e)
  {
    hide CheckContradiction, AddsCandidate, Replaces, Create, RecordSupersession;
    var d := Judge(env, s, tenant, b, c);
    match d
    case Duplicate(_) =>
    case Redundant(near, _) => ReadIsTouch(s, near, b.now);
    case Contradicts(_, _, _) => JudgedContradiction(env, s, tenant, b, c, id, d);
    case Novel => CreateAdds(env, s, tenant, b, c, id);
  }

  // A batch, one candidate after another; candidate i has ids[i] at its disposal.
  function IngestAll(env: Env, s: Space, tenant: Tenant, b: Batch, cs: seq<Candidate>, ids: seq<Id>): (Space, seq<Fate>)
    requires |cs| == |ids|
  {
    if cs == [] then (s, []) else
      var n := |cs| - 1;
      var (before, fates) := IngestAll(env, s, tenant, b, cs[..n], ids[..n]);
      var (after, fate) := IngestOne(env, before, tenant, b, cs[n], ids[n]);
      (after, fates + [fate])
  }

  function WrittenIds(fates: seq<Fate>): seq<Id> {
    if fates == [] then [] else
      var last := fates[|fates| - 1];
      WrittenIds(fates[..|fates| - 1]) + (if last.Skipped? then [] else [last.id])
  }

  function SkippedOnes(fates: seq<Fate>): seq<Fate> {
    if fates == [] then [] else
      var last := fates[|fates| - 1];
      SkippedOnes(fates[..|fates| - 1]) + (if last.Skipped? then [last] else [])
  }

  function ReplacedOnes(fates: seq<Fate>): seq<Fate> {
    if fates == [] then [] else
      var last := fates[|fates| - 1];
      ReplacedOnes(fates[..|fates| - 1]) + (if last.Replaced? then [last] else [])
  }

  lemma NoFates(env: Env, s: Space, tenant: Tenant, b: Batch)
    ensures IngestAll(env, s, tenant, b, [], []) == (s, [])
    ensures WrittenIds([]) == [] && SkippedOnes([]) == [] && ReplacedOnes([]) == []
  {
  }

  lemma FatesSnoc(fates: seq<Fate>, f: Fate)
    ensures WrittenIds(fates + [f]) == WrittenIds(fates) + (if f.Skipped? then [] else [f.id])
    ensures SkippedOnes(fates + [f]) == SkippedOnes(fates) + (if f.Skipped? then [f] else [])
    ensures ReplacedOnes(fates + [f]) == ReplacedOnes(fates) + (if f.Replaced? then [f] else [])
  {
    assert (fates + [f])[..|fates|] == fates;
  }

  lemma IngestSnoc(env: Env, s: Space, tenant: Tenant, b: Batch, cs: seq<Candidate>, ids: seq<Id>, i: nat)
    requires |cs| == |ids| && i < |cs|
    ensures var (before, fates) := IngestAll(env, s, tenant, b, cs[..i], ids[..i]);
      var (after, fate) := IngestOne(env, before, tenant, b, cs[i], ids[i]);
      IngestAll(env, s, tenant, b, cs[..i + 1], ids[..i + 1]) == (after, fates + [fate])
  {
    hide IngestOne;
    assert cs[..i + 1][..i] == cs[..i] && ids[..i + 1][..i] == ids[..i];
  }

  lemma {:induction false} FatesSplit(fates: seq<Fate>)
    ensures |WrittenIds(fates)| + |SkippedOnes(fates)| == |fates|
    ensures forall f | f in ReplacedOnes(fates) :: f.Replaced? && f.id in WrittenIds(fates)
  {
    if fates == [] {
    } else {
      FatesSplit(fates[..|fates| - 1]);
    }
  }

  lemma TouchKeys(s: Space, ids: set<Id>, now: Time)
    ensures Touch(s, ids, now).rows.Keys == s.rows.Keys && Touch(s, ids, now).points == s.points
  {
  }

  lemma CreateKeys(env: Env, s: Space, tenant: Tenant, id: Id, what: NewMemory, now: Time)
    ensures var s' := Create(env, s, tenant, id, what, now);
      s'.rows.Keys == s.rows.Keys + {id} && s'.points.Keys == s.points.Keys + {id}
  {
  }

  lemma RecordKeys(s: Space, tenant: Tenant, oldId: Id, newId: Id, user: string, reason: string, sim: Option<real>)
    ensures var s' := RecordSupersession(s, tenant, oldId, newId, user, reason, sim);
      s'.rows == s.rows && s'.points == s.points
  {
  }

  lemma CarryKeys(env: Env, s: Space, tenant: Tenant, b: Batch, c: Candidate, id: Id, d: Decision)
    ensures var s' := CarryOut(env, s, tenant, b, c, id, d);
      var added := if FateOf(d, id).Skipped? then {} else {id};
      s'.rows.Keys == s.rows.Keys + added && s'.points.Keys == s.points.Keys + added
  {
    hide Touch, Create, RecordSupersession;
    match d
    case Duplicate(_) =>
    case Redundant(existing, _) => TouchKeys(s, {existing}, b.now);
    case Contradicts(existing, similarity, why) =>
      TouchKeys(s, {existing}, b.now);
      CreateKeys(env, Touch(s, {existing}, b.now), tenant, id, NewFrom(b, c), b.now);
      RecordKeys(Create(env, Touch(s, {existing}, b.now), tenant, id, NewFrom(b, c), b.now),
                 tenant, existing, id, b.user, "contradiction:" + why, Some(similarity));
    case Novel => CreateKeys(env, s, tenant, id, NewFrom(b, c), b.now);
  }

  lemma IngestOneRows(env: Env, s: Space, tenant: Tenant, b: Batch, c: Candidate, id: Id)
    ensures var (after, fate) := IngestOne(env, s, tenant, b, c, id);
      && after.rows.Keys == s.rows.Keys + (if fate.Skipped? then {} else {id})
      && (!fate.Skipped? ==> fate.id == id)
  {
    hide Judge, CarryOut;
    CarryKeys(env, s, tenant, b, c, id, Judge(env, s, tenant, b, c));
  }

  lemma WrittenSnoc(fates: seq<Fate>, fate: Fate)
    ensures Elems(WrittenIds(fates + [fate])) == Elems(WrittenIds(fates)) + (if fate.Skipped? then {} else {fate.id})
  {
    assert (fates + [fate])[..|fates|] == fates;
    var w := WrittenIds(fates);
    if !fate.Skipped? {
      assert WrittenIds(fates + [fate]) == w + [fate.id];
      assert fate.id in w + [fate.id] && forall id | id in w :: id in w + [fate.id];
    }
  }

  lemma RowsSnoc(start: set<Id>, before: set<Id>, after: set<Id>, fates: seq<Fate>, fate: Fate, ids: seq<Id>)
    requires ids != [] && before == start + Elems(WrittenIds(fates))
    requires Elems(WrittenIds(fates)) <= Elems(ids[..|ids| - 1])
    requires after == before + (if fate.Skipped? then {} else {ids[|ids| - 1]})
    requires !fate.Skipped? ==> fate.id == ids[|ids| - 1]
    ensures after == start + Elems(WrittenIds(fates + [fate]))
    ensures Elems(WrittenIds(fates + [fate])) <= Elems(ids)
  {
    WrittenSnoc(fates, fate);
    assert ids == ids[..|ids| - 1] + [ids[|ids| - 1]];
  }

  lemma {:induction false} BatchRows(env: Env, s: Space, tenant: Tenant, b: Batch, cs: seq<Candidate>, ids: seq<Id>)
    requires |cs| == |ids|
    ensures var (after, fates) := IngestAll(env, s, tenant, b, cs, ids);
      && |fates| == |cs|
      && after.rows.Keys == s.rows.Keys + Elems(WrittenIds(fates))
      && Elems(WrittenIds(fates)) <= Elems(ids)
  {
    if cs == [] {
    } else {
      var n := |cs| - 1;
      BatchRows(env, s, tenant, b, cs[..n], ids[..n]);
      var (before, fates) := IngestAll(env, s, tenant, b, cs[..n], ids[..n]);
      var fate := IngestOne(env, before, tenant, b, cs[n], ids[n]).1;
      var after := IngestOne(env, before, tenant, b, cs[n], ids[n]).0;
      IngestOneRows(env, before, tenant, b, cs[n], ids[n]);
      RowsSnoc(s.rows.Keys, before.rows.Keys, after.rows.Keys, fates, fate, ids);
    }
  }

  lemma IngestOneBirths(env: Env, s: Space, tenant: Tenant, b: Batch, c: Candidate, id: Id)
    ensures IngestOne(env, s, tenant, b, c, id).0.births.Keys <= s.births.Keys + {id}
  {
  }

  // A batch uses up no ids but its own.
  lemma {:induction false} IngestAllBirths(env: Env, s: Space, tenant: Tenant, b: Batch, cs: seq<Candidate>,
                                           ids: seq<Id>)
    requires |cs| == |ids|
    ensures IngestAll(env, s, tenant, b, cs, ids).0.births.Keys <= s.births.Keys + Elems(ids)
  {
    hide IngestOne;
    if cs == [] {
    } else {
      var n := |cs| - 1;
      IngestAllBirths(env, s, tenant, b, cs[..n], ids[..n]);
      IngestOneBirths(env, IngestAll(env, s, tenant, b, cs[..n], ids[..n]).0, tenant, b, cs[n], ids[n]);
      assert ids == ids[..n] + [ids[n]];
    }
  }

  // Each candidate ends in exactly one of written and skipped, every replacement is of a
  // written memory, and the space gains exactly the written ids.
  lemma EveryCandidateEndsOnce(env: Env, s: Space, tenant: Tenant, b: Batch, cs: seq<Candidate>, ids: seq<Id>)
    requires |cs| == |ids|
    ensures var (after, fates) := IngestAll(env, s, tenant, b, cs, ids);
      && |WrittenIds(fates)| + |SkippedOnes(fates)| == |cs|
      && (forall f | f in ReplacedOnes(fates) :: f.Replaced? && f.id in WrittenIds(fates))
      && after.rows.Keys == s.rows.Keys + Elems(WrittenIds(fates))
  {
    BatchRows(env, s, tenant, b, cs, ids);
    FatesSplit(IngestAll(env, s, tenant, b, cs, ids).1);
  }
}
