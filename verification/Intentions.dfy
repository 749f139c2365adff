// Trigger matching (mypalace/intentions/triggers.py) and the life of an intention
// (mypalace/intentions/service.py).
module Intentions {
  import opened Prelude

  type Id = string
  type Instant = int // seconds, UTC

  // An ISO timestamp as parsed: the wall-clock reading and the offset written behind it.
  datatype Stamp = Stamp(wall: Instant, offset: Option<int>)

  datatype Trigger =
    | Keyword(keywords: seq<string>, regex: Option<string>, caseSensitive: bool)
    | Topic(topic: string, threshold: real, quickKeywords: seq<string>)
    | AtTime(at: Option<string>, after: Option<string>)
    | Context(conditions: string)
    | Unknown(kind: string)

  datatype Match = Keywords(matched: seq<string>) | Similar(topic: string, similarity: real)
                 | Reached(time: string, kind: string) | Fitting

  // Text handling and context matching that the model does not look into.
  datatype Text = Text(
    lower: string -> string,
    words: string -> set<string>, // lower-cased and split
    contains: (string, string) -> bool, // whole, part
    found: (string, string, bool) -> bool, // pattern, message, case sensitive
    parse: string -> Option<Stamp>,
    fits: string -> bool) // the context conditions of this call

  datatype Intention = Intention(
    tenant: string, user: string, agent: string, content: string, trigger: Trigger, priority: int,
    fired: bool, fireOnce: bool, expiresAt: Option<Instant>, firedAt: Option<Instant>, source: Option<string>)

  datatype Fired = Fired(id: Id, content: string, priority: int, details: Match, source: Option<string>)

  type Table = map<Id, Intention>

  // ---- Triggers ----

  predicate Said(x: Text, message: string, keyword: string, caseSensitive: bool) {
    if caseSensitive then x.contains(message, keyword) else x.contains(x.lower(message), x.lower(keyword))
  }

  function MatchedKeywords(x: Text, message: string, keywords: seq<string>, caseSensitive: bool): seq<string> {
    if keywords == [] then [] else
      var last := keywords[|keywords| - 1];
      MatchedKeywords(x, message, keywords[..|keywords| - 1], caseSensitive)
        + (if Said(x, message, last, caseSensitive) then [last] else [])
  }

  // The matcher's loop over the keywords.
  method CollectKeywords(x: Text, message: string, keywords: seq<string>, caseSensitive: bool)
    returns (matched: seq<string>)
    ensures matched == MatchedKeywords(x, message, keywords, caseSensitive)
  {
    matched := [];
    var shown := if caseSensitive then message else x.lower(message);
    for i := 0 to |keywords|
      invariant matched == MatchedKeywords(x, message, keywords[..i], caseSensitive)
    {
      assert keywords[..i + 1][..i] == keywords[..i];
      if x.contains(shown, if caseSensitive then keywords[i] else x.lower(keywords[i])) {
        matched := matched + [keywords[i]];
      }
    }
    assert keywords[..|keywords|] == keywords;
  }

  function CheckKeyword(x: Text, message: string, t: Trigger): Option<Match>
    requires t.Keyword?
  {
    var matched := MatchedKeywords(x, message, t.keywords, t.caseSensitive)
      + (if t.regex.Some? && t.regex.value != "" && x.found(t.regex.value, message, t.caseSensitive)
         then ["regex:" + t.regex.value] else []);
    if matched != [] then Some(Keywords(matched)) else None
  }

  function CheckTopic(x: Text, message: string, t: Trigger): Option<Match>
    requires t.Topic?
  {
    if t.topic == "" then None else
      var words := x.words(t.topic);
      var overlap := |words * x.words(message)| as real / (if |words| > 1 then |words| else 1) as real;
      if overlap >= t.threshold then Some(Similar(t.topic, overlap)) else None
  }

  // The offset behind the wall-clock reading is dropped, not applied.
  predicate TimeReached(x: Text, now: Instant, written: Option<string>) {
    written.Some? && written.value != "" && x.parse(written.value).Some? && now >= x.parse(written.value).value.wall
  }

  function CheckTime(x: Text, now: Instant, t: Trigger): Option<Match>
    requires t.AtTime?
  {
    if TimeReached(x, now, t.at) then Some(Reached(t.at.value, "at"))
    else if TimeReached(x, now, t.after) then Some(Reached(t.after.value, "after"))
    else None
  }

  function EvaluateTrigger(x: Text, message: string, t: Trigger, now: Instant): Option<Match> {
    match t
    case Keyword(_, _, _) => CheckKeyword(x, message, t)
    case Topic(_, _, quick) =>
      if quick != [] && !(exists i :: 0 <= i < |quick| && x.contains(x.lower(message), x.lower(quick[i]))) then None
      else CheckTopic(x, message, t)
    case AtTime(_, _) => CheckTime(x, now, t)
    case Context(conditions) => if x.fits(conditions) then Some(Fitting) else None
    case Unknown(_) => None
  }

  // Once a time trigger has come due it stays due.
  lemma DueStaysDue(x: Text, m: string, m': string, t: Trigger, now: Instant, later: Instant)
    requires t.AtTime? && now <= later && EvaluateTrigger(x, m, t, now).Some?
    ensures EvaluateTrigger(x, m', t, later).Some?
  {
  }

  // The documented comparison is in UTC. The code agrees with it at every moment exactly when
  // the timestamp is written with no offset or with offset zero.
  predicate DueInUtc(s: Stamp, now: Instant) {
    now >= s.wall - (if s.offset.Some? then s.offset.value else 0)
  }

  lemma UtcOnlyAtOffsetZero(x: Text, written: string, m: string)
    requires written != "" && x.parse(written).Some?
    ensures var s := x.parse(written).value;
      (forall now :: EvaluateTrigger(x, m, AtTime(Some(written), None), now).Some? <==> DueInUtc(s, now))
      <==> s.offset.None? || s.offset.value == 0
  {
    var s := x.parse(written).value;
    var t := AtTime(Some(written), None);
    if s.offset.Some? {
      var due := s.wall - s.offset.value;
      assert EvaluateTrigger(x, m, t, s.wall).Some? && DueInUtc(s, due);
      if s.offset.value > 0 {
        assert EvaluateTrigger(x, m, t, due).None?;
      } else if s.offset.value < 0 {
        assert !DueInUtc(s, s.wall);
      }
    }
  }

  // ---- One check ----

  predicate Expired(i: Intention, now: Instant) {
    i.expiresAt.Some? && i.expiresAt.value <= now
  }

  predicate Watching(i: Intention, tenant: string, user: string, agent: string) {
    i.user == user && i.agent == agent && i.tenant == tenant && !i.fired
  }

  // The rows of the first query, in whatever order the database returns them.
  ghost predicate Listing(t: Table, tenant: string, user: string, agent: string, order: seq<Id>) {
    Distinct(order) && forall id :: id in order <==> id in t && Watching(t[id], tenant, user, agent)
  }

  predicate Fires(x: Text, i: Intention, message: string, now: Instant) {
    !Expired(i, now) && EvaluateTrigger(x, message, i.trigger, now).Some?
  }

  function FiredOf(x: Text, id: Id, i: Intention, message: string, now: Instant): Fired
    requires Fires(x, i, message, now)
  {
    Fired(id, i.content, i.priority, EvaluateTrigger(x, message, i.trigger, now).value, i.source)
  }

  function FiredAmong(x: Text, t: Table, order: seq<Id>, message: string, now: Instant): seq<Fired>
    requires forall id | id in order :: id in t
  {
    if order == [] then [] else
      var last := order[|order| - 1];
      FiredAmong(x, t, order[..|order| - 1], message, now)
        + (if Fires(x, t[last], message, now) then [FiredOf(x, last, t[last], message, now)] else [])
  }

  function IdsOf(fired: seq<Fired>): set<Id> { set f | f in fired :: f.id }

  // Fired rows are marked, and removed when they fire once; all other rows are as they were.
  function AfterFiring(t: Table, ids: set<Id>, stamped: Instant): Table {
    map id | id in t && !(id in ids && t[id].fireOnce) ::
      if id in ids then t[id].(fired := true, firedAt := Some(stamped)) else t[id]
  }

  const PRIORITY := (f: Fired) => f.priority as real

  lemma FiredIs(x: Text, i: Intention, id: Id, message: string, now: Instant)
    requires Fires(x, i, message, now)
    ensures FiredOf(x, id, i, message, now).id == id
  {
  }

  lemma IdsOfSnoc(fired: seq<Fired>, f: Fired)
    ensures IdsOf(fired + [f]) == IdsOf(fired) + {f.id}
  {
    forall id | id in IdsOf(fired) ensures id in IdsOf(fired + [f]) {
      var g :| g in fired && g.id == id;
      assert g in fired + [f];
    }
    assert f in fired + [f];
  }

  // Exactly the rows that fire are returned, each once.
  lemma {:induction false} FiredAmongSpec(x: Text, t: Table, order: seq<Id>, message: string, now: Instant)
    requires Distinct(order) && forall id | id in order :: id in t
    ensures var fired := FiredAmong(x, t, order, message, now);
      && (forall id :: id in IdsOf(fired) <==> id in order && Fires(x, t[id], message, now))
      && (forall i, j | 0 <= i < j < |fired| :: fired[i].id != fired[j].id)
      && (forall f | f in fired ::
          f.id in order && Fires(x, t[f.id], message, now) && f == FiredOf(x, f.id, t[f.id], message, now))
  {
    hide Fires, FiredOf;
    if order == [] {
    } else {
      var rest, last := order[..|order| - 1], order[|order| - 1];
      assert order == rest + [last];
      FiredAmongSpec(x, t, rest, message, now);
      var before := FiredAmong(x, t, rest, message, now);
      assert last !in rest;
      assert forall i | 0 <= i < |before| :: before[i] in before && before[i].id in rest;
      if Fires(x, t[last], message, now) {
        var f := FiredOf(x, last, t[last], message, now);
        FiredIs(x, t[last], last, message, now);
        IdsOfSnoc(before, f);
      } else {
        assert FiredAmong(x, t, order, message, now) == before;
      }
    }
  }

  lemma MarkOne(t: Table, ids: set<Id>, id: Id, stamped: Instant)
    requires id in t && id !in ids
    ensures var rows := AfterFiring(t, ids, stamped);
      var marked := rows[id := t[id].(fired := true, firedAt := Some(stamped))];
      && id in rows && rows[id] == t[id]
      && AfterFiring(t, ids + {id}, stamped) == (if t[id].fireOnce then marked - {id} else marked)
  {
    var rows := AfterFiring(t, ids, stamped);
    var marked := rows[id := t[id].(fired := true, firedAt := Some(stamped))];
    var expected := if t[id].fireOnce then marked - {id} else marked;
    var after := AfterFiring(t, ids + {id}, stamped);
    assert after.Keys == expected.Keys;
    assert forall o | o in after :: after[o] == expected[o];
  }

  // Visiting one more row of the listing.
  lemma VisitRow(x: Text, t: Table, order: seq<Id>, i: nat, message: string, now: Instant, stamped: Instant)
    requires i < |order| && Distinct(order) && forall id | id in order :: id in t
    ensures var fired := FiredAmong(x, t, order[..i], message, now);
      var rows := AfterFiring(t, IdsOf(fired), stamped);
      var id := order[i];
      && id in rows && rows[id] == t[id]
      && if Fires(x, t[id], message, now) then
           var f := FiredOf(x, id, t[id], message, now);
           var marked := rows[id := t[id].(fired := true, firedAt := Some(stamped))];
           && FiredAmong(x, t, order[..i + 1], message, now) == fired + [f]
           && AfterFiring(t, IdsOf(fired + [f]), stamped) == (if t[id].fireOnce then marked - {id} else marked)
         else FiredAmong(x, t, order[..i + 1], message, now) == fired
  {
    assert order[..i + 1][..i] == order[..i];
    FiredAmongSpec(x, t, order[..i], message, now);
    var fired := FiredAmong(x, t, order[..i], message, now);
    assert order[i] !in IdsOf(fired);
    MarkOne(t, IdsOf(fired), order[i], stamped);
    if Fires(x, t[order[i]], message, now) {
      IdsOfSnoc(fired, FiredOf(x, order[i], t[order[i]], message, now));
    }
  }

  predicate Overdue(i: Intention, tenant: string, now: Instant) {
    i.expiresAt.Some? && i.expiresAt.value < now && i.tenant == tenant
  }

  function Swept(t: Table, tenant: string, now: Instant): Table {
    map id | id in t && !Overdue(t[id], tenant, now) :: t[id]
  }

  class IntentionService {
    var rows: Table

    constructor ()
      ensures rows == map[]
    {
      rows := map[];
    }

    method Set(id: Id, tenant: string, user: string, agent: string, content: string, trigger: Trigger,
               priority: int, fireOnce: bool, expiresAt: Option<Instant>, source: Option<string>)
      requires id !in rows // a new random id
      modifies this
      ensures rows == old(rows)[id := Intention(tenant, user, agent, content, trigger, priority, false, fireOnce,
                                                expiresAt, None, source)]
    {
      rows := rows[id := Intention(tenant, user, agent, content, trigger, priority, false, fireOnce,
                                   expiresAt, None, source)];
    }

    method Check(x: Text, tenant: string, user: string, agent: string, message: string,
                 now: Instant, stamped: Instant, order: seq<Id>) returns (fired: seq<Fired>)
      requires Listing(rows, tenant, user, agent, order)
      modifies this
      ensures fired == SortDesc(PRIORITY, FiredAmong(x, old(rows), order, message, now))
      ensures rows == AfterFiring(old(rows), IdsOf(FiredAmong(x, old(rows), order, message, now)), stamped)
    {
      fired := [];
      for i := 0 to |order|
        invariant fired == FiredAmong(x, old(rows), order[..i], message, now)
        invariant rows == AfterFiring(old(rows), IdsOf(fired), stamped)
      {
        var id := order[i];
        VisitRow(x, old(rows), order, i, message, now, stamped);
        var row := rows[id];
        if Expired(row, now) {
          continue;
        }
        var details := EvaluateTrigger(x, message, row.trigger, now);
        if details.None? {
          continue;
        }
        fired := fired + [Fired(id, row.content, row.priority, details.value, row.source)];
        rows := rows[id := row.(fired := true, firedAt := Some(stamped))];
        if row.fireOnce {
          rows := rows - {id};
        }
      }
      assert order[..|order|] == order;
      fired := SortDesc(PRIORITY, fired);
    }

    method Delete(id: Id, tenant: string) returns (deleted: bool)
      modifies this
      ensures deleted <==> id in old(rows) && old(rows)[id].tenant == tenant
      ensures rows == if deleted then old(rows) - {id} else old(rows)
    {
      deleted := id in rows && rows[id].tenant == tenant;
      if deleted {
        rows := rows - {id};
      }
    }

    method CleanupExpired(tenant: string, now: Instant) returns (count: nat)
      modifies this
      ensures rows == Swept(old(rows), tenant, now)
      ensures forall id | id in old(rows) ::
        var i := old(rows)[id];
        (id in rows <==> i.tenant != tenant || i.expiresAt == None || i.expiresAt.value >= now)
      ensures forall id | id in rows :: id in old(rows) && rows[id] == old(rows)[id]
      ensures count == |old(rows)| - |rows|
    {
      var gone := set id | id in rows && Overdue(rows[id], tenant, now);
      assert rows - gone == Swept(rows, tenant, now);
      assert rows.Keys == (rows - gone).Keys + gone;
      rows := rows - gone;
      return |gone|;
    }
  }

  // What one check returns and leaves, told without its loop.
  lemma CheckSpec(x: Text, t: Table, tenant: string, user: string, agent: string, message: string,
                  now: Instant, stamped: Instant, order: seq<Id>, v: real)
    requires Listing(t, tenant, user, agent, order)
    ensures var found := FiredAmong(x, t, order, message, now);
      var fired := SortDesc(PRIORITY, found);
      var t' := AfterFiring(t, IdsOf(found), stamped);
      && (forall i, j | 0 <= i < j < |fired| :: fired[i].priority >= fired[j].priority)
      && AtScore(PRIORITY, v, fired) == AtScore(PRIORITY, v, found)
      && (forall id :: id in IdsOf(fired) <==>
          id in t && Watching(t[id], tenant, user, agent) && Fires(x, t[id], message, now))
      && (forall id | id in t && id !in IdsOf(fired) :: id in t' && t'[id] == t[id])
      && (forall id | id in IdsOf(fired) ::
            if t[id].fireOnce then id !in t'
            else id in t' && t'[id] == t[id].(fired := true, firedAt := Some(stamped)))
      && (forall id | id in t' :: id in t)
  {
    FiredAmongSpec(x, t, order, message, now);
    var found := FiredAmong(x, t, order, message, now);
    SortOrders(PRIORITY, found);
    SortStable(PRIORITY, found, v);
    SortMembers(PRIORITY, found);
    var fired := SortDesc(PRIORITY, found);
    assert IdsOf(fired) == IdsOf(found);
    forall i, j | 0 <= i < j < |fired| ensures fired[i].priority >= fired[j].priority {
      assert PRIORITY(fired[i]) >= PRIORITY(fired[j]);
    }
  }

  // The check's answer about one intention, and what it puts beside it.
  lemma CheckAnswers(x: Text, t: Table, tenant: string, user: string, agent: string, message: string, now: Instant,
                     order: seq<Id>, id: Id)
    requires Listing(t, tenant, user, agent, order) && id in t
    ensures var fired := SortDesc(PRIORITY, FiredAmong(x, t, order, message, now));
      var i, found := t[id], EvaluateTrigger(x, message, t[id].trigger, now);
      && (id in IdsOf(fired) <==>
            && i.tenant == tenant && i.user == user && i.agent == agent && !i.fired
            && (i.expiresAt == None || i.expiresAt.value > now) && found.Some?)
      && (forall f | f in fired && f.id == id ::
            found.Some? && f == Fired(id, i.content, i.priority, found.value, i.source))
  {
    FiredAmongSpec(x, t, order, message, now);
    SortMembers(PRIORITY, FiredAmong(x, t, order, message, now));
    hide EvaluateTrigger;
    var found := FiredAmong(x, t, order, message, now);
    assert IdsOf(SortDesc(PRIORITY, found)) == IdsOf(found);
  }

  function Pick(keywords: seq<string>, places: seq<nat>): (picked: seq<string>)
    requires forall i | 0 <= i < |places| :: places[i] < |keywords|
    ensures |picked| == |places| && forall i | 0 <= i < |places| :: picked[i] == keywords[places[i]]
  {
    seq(|places|, i requires 0 <= i < |places| => keywords[places[i]])
  }

  predicate Ascending(places: seq<nat>, limit: nat) {
    && (forall i, j | 0 <= i < j < |places| :: places[i] < places[j])
    && (forall i | 0 <= i < |places| :: places[i] < limit)
  }

  // The places of the keywords that the message contains, in order.
  ghost predicate Places(x: Text, message: string, keywords: seq<string>, caseSensitive: bool, places: seq<nat>) {
    && Ascending(places, |keywords|)
    && (forall k: nat | k < |keywords| :: k in places <==> Said(x, message, keywords[k], caseSensitive))
  }

  lemma PickSnoc(keywords: seq<string>, w: string, before: seq<nat>)
    requires Ascending(before, |keywords|)
    ensures Ascending(before, |keywords| + 1) && Ascending(before + [|keywords|], |keywords| + 1)
    ensures Pick(keywords + [w], before) == Pick(keywords, before)
    ensures Pick(keywords + [w], before + [|keywords|]) == Pick(keywords, before) + [w]
  {
  }

  lemma PlacesSnoc(x: Text, message: string, keywords: seq<string>, w: string, caseSensitive: bool, before: seq<nat>)
    requires Places(x, message, keywords, caseSensitive, before)
    ensures var places := if Said(x, message, w, caseSensitive) then before + [|keywords|] else before;
      Places(x, message, keywords + [w], caseSensitive, places)
  {
    var n, all := |keywords|, keywords + [w];
    PickSnoc(keywords, w, before);
    assert n !in before;
    hide Said, Ascending;
    var places := if Said(x, message, w, caseSensitive) then before + [n] else before;
    forall k: nat | k < |all| ensures k in places <==> Said(x, message, all[k], caseSensitive) {
      if k < n {
        assert all[k] == keywords[k];
        assert k in places <==> k in before;
      }
    }
  }

  lemma {:induction false} MatchedPlaces(x: Text, message: string, keywords: seq<string>, caseSensitive: bool)
    returns (places: seq<nat>)
    ensures Places(x, message, keywords, caseSensitive, places)
    ensures MatchedKeywords(x, message, keywords, caseSensitive) == Pick(keywords, places)
  {
    hide Said;
    if keywords == [] {
      places := [];
    } else {
      var n := |keywords| - 1;
      var before := MatchedPlaces(x, message, keywords[..n], caseSensitive);
      assert keywords == keywords[..n] + [keywords[n]];
      PlacesSnoc(x, message, keywords[..n], keywords[n], caseSensitive, before);
      PickSnoc(keywords[..n], keywords[n], before);
      places := if Said(x, message, keywords[n], caseSensitive) then before + [n] else before;
    }
  }

  // What the keyword matcher makes of a message, told by the places.
  lemma KeywordDetails(x: Text, message: string, k: Trigger, now: Instant) returns (places: seq<nat>)
    requires k.Keyword?
    ensures Ascending(places, |k.keywords|)
    ensures forall j: nat | j < |k.keywords| ::
      (j in places <==> if k.caseSensitive then x.contains(message, k.keywords[j])
                        else x.contains(x.lower(message), x.lower(k.keywords[j])))
    ensures var matches := k.regex != None && k.regex != Some("") && x.found(k.regex.value, message, k.caseSensitive);
      EvaluateTrigger(x, message, k, now) ==
        if places == [] && !matches then None
        else Some(Keywords(Pick(k.keywords, places) + (if matches then ["regex:" + k.regex.value] else [])))
  {
    places := MatchedPlaces(x, message, k.keywords, k.caseSensitive);
  }

  // A keyword intention of the caller is returned exactly when it is unfired and unexpired and the
  // message contains one of its keywords (in lower case on both sides, unless case matters) or its
  // pattern, if it has a nonempty one, is found. It comes with exactly those keywords, in its own
  // order, and the pattern behind them.
  lemma KeywordsAreReturned(x: Text, t: Table, tenant: string, user: string, agent: string, message: string,
                            now: Instant, order: seq<Id>, id: Id) returns (places: seq<nat>)
    requires Listing(t, tenant, user, agent, order) && id in t && t[id].trigger.Keyword?
    ensures Ascending(places, |t[id].trigger.keywords|)
    ensures var k := t[id].trigger;
      forall j: nat | j < |k.keywords| ::
        (j in places <==> if k.caseSensitive then x.contains(message, k.keywords[j])
                          else x.contains(x.lower(message), x.lower(k.keywords[j])))
    ensures var fired := SortDesc(PRIORITY, FiredAmong(x, t, order, message, now));
      var i, k := t[id], t[id].trigger;
      var matches := k.regex != None && k.regex != Some("") && x.found(k.regex.value, message, k.caseSensitive);
      && (id in IdsOf(fired) <==>
            && i.tenant == tenant && i.user == user && i.agent == agent && !i.fired
            && (i.expiresAt == None || i.expiresAt.value > now)
            && (places != [] || matches))
      && (forall f | f in fired && f.id == id ::
            f == Fired(id, i.content, i.priority,
                       Keywords(Pick(k.keywords, places) + (if matches then ["regex:" + k.regex.value] else [])),
                       i.source))
  {
    CheckAnswers(x, t, tenant, user, agent, message, now, order, id);
    places := KeywordDetails(x, message, t[id].trigger, now);
    hide FiredAmong, EvaluateTrigger, Listing, SortDesc, IdsOf;
  }

  // What the topic matcher makes of a message: none or one of the quick keywords is in it, and so is
  // at least the threshold's share of the topic's words.
  lemma TopicDetails(x: Text, message: string, k: Trigger, now: Instant)
    requires k.Topic?
    ensures var words := x.words(k.topic);
      var share := |words * x.words(message)| as real / (if |words| == 0 then 1.0 else |words| as real);
      EvaluateTrigger(x, message, k, now) ==
        if (k.quickKeywords == [] || exists w :: w in k.quickKeywords && x.contains(x.lower(message), x.lower(w)))
           && k.topic != "" && share >= k.threshold
        then Some(Similar(k.topic, share)) else None
  {
    if w :| w in k.quickKeywords && x.contains(x.lower(message), x.lower(w)) {
      var j :| 0 <= j < |k.quickKeywords| && k.quickKeywords[j] == w;
    }
  }

  // A topic intention of the caller is returned exactly when it is unfired and unexpired, none or one
  // of its quick keywords is in the message, and the topic is not empty and at least the threshold's
  // share of its words is in the message. It comes with that share.
  lemma TopicsAreReturned(x: Text, t: Table, tenant: string, user: string, agent: string, message: string,
                          now: Instant, order: seq<Id>, id: Id)
    requires Listing(t, tenant, user, agent, order) && id in t && t[id].trigger.Topic?
    ensures var fired := SortDesc(PRIORITY, FiredAmong(x, t, order, message, now));
      var i, k := t[id], t[id].trigger;
      var words := x.words(k.topic);
      var share := |words * x.words(message)| as real / (if |words| == 0 then 1.0 else |words| as real);
      && (id in IdsOf(fired) <==>
            && i.tenant == tenant && i.user == user && i.agent == agent && !i.fired
            && (i.expiresAt == None || i.expiresAt.value > now)
            && (k.quickKeywords == []
                || exists w :: w in k.quickKeywords && x.contains(x.lower(message), x.lower(w)))
            && k.topic != "" && share >= k.threshold)
      && (forall f | f in fired && f.id == id ::
            f == Fired(id, i.content, i.priority, Similar(k.topic, share), i.source))
  {
    hide *;
    CheckAnswers(x, t, tenant, user, agent, message, now, order, id);
    TopicDetails(x, message, t[id].trigger, now);
  }

  // A time intention: its target, or failing that the moment after which it fires, is written, parses
  // and is not after the clock; the offset does not count.
  lemma TimesAreReturned(x: Text, t: Table, tenant: string, user: string, agent: string, message: string,
                         now: Instant, order: seq<Id>, id: Id)
    requires Listing(t, tenant, user, agent, order) && id in t && t[id].trigger.AtTime?
    ensures var fired := SortDesc(PRIORITY, FiredAmong(x, t, order, message, now));
      var i, k := t[id], t[id].trigger;
      var reached := (w: Option<string>) =>
        w != None && w != Some("") && x.parse(w.value) != None && x.parse(w.value).value.wall <= now;
      && (id in IdsOf(fired) <==>
            && i.tenant == tenant && i.user == user && i.agent == agent && !i.fired
            && (i.expiresAt == None || i.expiresAt.value > now)
            && (reached(k.at) || reached(k.after)))
      && (forall f | f in fired && f.id == id ::
            f == Fired(id, i.content, i.priority,
                       if reached(k.at) then Reached(k.at.value, "at") else Reached(k.after.value, "after"), i.source))
  {
    CheckAnswers(x, t, tenant, user, agent, message, now, order, id);
    hide FiredAmong, Listing, SortDesc, IdsOf;
  }

  // A context intention is returned exactly when its conditions fit; one of an unknown kind never is.
  lemma ContextsAreReturned(x: Text, t: Table, tenant: string, user: string, agent: string, message: string,
                            now: Instant, order: seq<Id>, id: Id)
    requires Listing(t, tenant, user, agent, order) && id in t && (t[id].trigger.Context? || t[id].trigger.Unknown?)
    ensures var fired := SortDesc(PRIORITY, FiredAmong(x, t, order, message, now));
      var i, k := t[id], t[id].trigger;
      && (id in IdsOf(fired) <==>
            && i.tenant == tenant && i.user == user && i.agent == agent && !i.fired
            && (i.expiresAt == None || i.expiresAt.value > now)
            && k.Context? && x.fits(k.conditions))
      && (forall f | f in fired && f.id == id :: f == Fired(id, i.content, i.priority, Fitting, i.source))
  {
    CheckAnswers(x, t, tenant, user, agent, message, now, order, id);
    hide FiredAmong, Listing, SortDesc, IdsOf;
  }

  // ---- Whole runs ----

  datatype Op =
    | SetOp(id: Id, row: Intention)
    | CheckOp(x: Text, tenant: string, user: string, agent: string, message: string, now: Instant,
              stamped: Instant, order: seq<Id>)
    | DeleteOp(victim: Id, owner: string)
    | CleanupOp(sweeper: string, at: Instant)

  // `used` holds every id ever set; `returned` counts how often each was handed out by a check.
  datatype State = State(rows: Table, used: set<Id>, returned: multiset<Id>)

  ghost predicate Enabled(s: State, op: Op) {
    match op
    case SetOp(id, row) => id !in s.used && !row.fired
    case CheckOp(_, tenant, user, agent, _, _, _, order) => Listing(s.rows, tenant, user, agent, order)
    case _ => true
  }

  ghost function Returned(s: State, op: Op): set<Id>
    requires Enabled(s, op)
  {
    if op.CheckOp? then IdsOf(SortDesc(PRIORITY, FiredAmong(op.x, s.rows, op.order, op.message, op.now))) else {}
  }

  ghost function Apply(s: State, op: Op): State
    requires Enabled(s, op)
  {
    match op
    case SetOp(id, row) => s.(rows := s.rows[id := row], used := s.used + {id})
    case CheckOp(x, _, _, _, message, now, stamped, order) =>
      s.(rows := AfterFiring(s.rows, IdsOf(FiredAmong(x, s.rows, order, message, now)), stamped),
         returned := s.returned + multiset(Returned(s, op)))
    case DeleteOp(id, tenant) =>
      if id in s.rows && s.rows[id].tenant == tenant then s.(rows := s.rows - {id}) else s
    case CleanupOp(tenant, now) => s.(rows := Swept(s.rows, tenant, now))
  }

  ghost predicate Legal(s: State, ops: seq<Op>)
    decreases |ops|
  {
    ops == [] || (Enabled(s, ops[0]) && Legal(Apply(s, ops[0]), ops[1..]))
  }

  ghost function Run(s: State, ops: seq<Op>): State
    requires Legal(s, ops)
    decreases |ops|
  {
    if ops == [] then s else Run(Apply(s, ops[0]), ops[1..])
  }

  // An id is handed out at most once, and then its row is gone or marked.
  ghost predicate Spent(s: State) {
    && s.rows.Keys <= s.used
    && (forall id | id in s.returned :: id in s.used && s.returned[id] == 1 && (id in s.rows ==> s.rows[id].fired))
  }

  lemma StepSpent(s: State, op: Op)
    requires Spent(s) && Enabled(s, op)
    ensures Spent(Apply(s, op))
    ensures forall id | id in Returned(s, op) :: id in s.rows && !Expired(s.rows[id], op.now) && id !in s.returned
  {
    if op.CheckOp? {
      CheckSpec(op.x, s.rows, op.tenant, op.user, op.agent, op.message, op.now, op.stamped, op.order, 0.0);
    }
  }

  // In every run, fire-once or not, an intention is returned by at most one check, and never
  // by one at or after its expiry.
  lemma {:induction false} ReturnedAtMostOnce(s: State, ops: seq<Op>)
    requires Spent(s) && Legal(s, ops)
    ensures Spent(Run(s, ops))
    decreases |ops|
  {
    if ops == [] {
    } else {
      StepSpent(s, ops[0]);
      ReturnedAtMostOnce(Apply(s, ops[0]), ops[1..]);
    }
  }

  predicate TimeDue(x: Text, now: Instant, t: Trigger) {
    t.AtTime? && (TimeReached(x, now, t.at) || TimeReached(x, now, t.after))
  }

  // A check returns a time trigger it watches exactly when that is unexpired and due.
  lemma DueTriggerIsReturned(s: State, op: Op, id: Id)
    requires op.CheckOp? && Enabled(s, op) && id in s.rows && Watching(s.rows[id], op.tenant, op.user, op.agent)
    requires s.rows[id].trigger.AtTime?
    ensures id in Returned(s, op) <==> !Expired(s.rows[id], op.now) && TimeDue(op.x, op.now, s.rows[id].trigger)
  {
    CheckSpec(op.x, s.rows, op.tenant, op.user, op.agent, op.message, op.now, op.stamped, op.order, 0.0);
  }

  // The operation leaves an intention waiting: it does not delete or sweep it, and if it is one
  // of its own checks, that comes before the target or after the expiry.
  predicate LeavesWaiting(op: Op, id: Id, row: Intention) {
    match op
    case SetOp(_, _) => true
    case CheckOp(x, tenant, user, agent, _, now, _, _) =>
      Watching(row, tenant, user, agent) ==> Expired(row, now) || !TimeDue(x, now, row.trigger)
    case DeleteOp(victim, owner) => !(victim == id && row.tenant == owner)
    case CleanupOp(sweeper, at) => !Overdue(row, sweeper, at)
  }

  lemma StepLeavesWaiting(s: State, op: Op, id: Id)
    requires Spent(s) && Enabled(s, op) && id in s.rows && s.rows[id].trigger.AtTime?
    requires LeavesWaiting(op, id, s.rows[id])
    ensures id in Apply(s, op).rows && Apply(s, op).rows[id] == s.rows[id]
  {
    if op.CheckOp? {
      CheckSpec(op.x, s.rows, op.tenant, op.user, op.agent, op.message, op.now, op.stamped, op.order, 0.0);
      hide FiredAmong, Listing;
      assert id !in IdsOf(SortDesc(PRIORITY, FiredAmong(op.x, s.rows, op.order, op.message, op.now)));
    }
  }

  lemma {:induction false} RunLeavesWaiting(s: State, ops: seq<Op>, id: Id)
    requires Spent(s) && Legal(s, ops) && id in s.rows && s.rows[id].trigger.AtTime?
    requires forall op | op in ops :: LeavesWaiting(op, id, s.rows[id])
    ensures id in Run(s, ops).rows && Run(s, ops).rows[id] == s.rows[id]
    decreases |ops|
  {
    hide Apply, Enabled, LeavesWaiting;
    if ops == [] {
    } else {
      assert ops[0] in ops && forall op | op in ops[1..] :: op in ops;
      StepSpent(s, ops[0]);
      StepLeavesWaiting(s, ops[0], id);
      RunLeavesWaiting(Apply(s, ops[0]), ops[1..], id);
    }
  }

  // In any run that neither deletes nor sweeps a time-triggered intention, and whose own checks
  // so far all came before its target or after its expiry, the next check of its user and agent
  // returns it exactly when it is unexpired and due.
  lemma FirstDueCheckReturns(s: State, ops: seq<Op>, check: Op, id: Id)
    requires Spent(s) && Legal(s, ops) && check.CheckOp? && Enabled(Run(s, ops), check)
    requires id in s.rows && s.rows[id].trigger.AtTime? && Watching(s.rows[id], check.tenant, check.user, check.agent)
    requires forall op | op in ops :: LeavesWaiting(op, id, s.rows[id])
    ensures id in Returned(Run(s, ops), check)
      <==> !Expired(s.rows[id], check.now) && TimeDue(check.x, check.now, s.rows[id].trigger)
  {
    RunLeavesWaiting(s, ops, id);
    DueTriggerIsReturned(Run(s, ops), check, id);
  }

  // No check misses it: once the target has been reached at some moment, the next own check at
  // any later moment returns it, unless it has expired.
  lemma DueIsNotMissed(s: State, ops: seq<Op>, check: Op, id: Id, message: string, reached: Instant)
    requires Spent(s) && Legal(s, ops) && check.CheckOp? && Enabled(Run(s, ops), check)
    requires id in s.rows && s.rows[id].trigger.AtTime? && Watching(s.rows[id], check.tenant, check.user, check.agent)
    requires forall op | op in ops :: LeavesWaiting(op, id, s.rows[id])
    requires reached <= check.now && EvaluateTrigger(check.x, message, s.rows[id].trigger, reached).Some?
    ensures id in Returned(Run(s, ops), check) <==> !Expired(s.rows[id], check.now)
  {
    hide Run, Legal, Returned;
    DueStaysDue(check.x, message, check.message, s.rows[id].trigger, reached, check.now);
    FirstDueCheckReturns(s, ops, check, id);
  }
}
