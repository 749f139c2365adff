// Stored review state of one tenant's memories (mypalace/dynamics/service.py).
module Dynamics {
  import opened Prelude
  import opened Fsrs

  type Id = string

  // memory_dynamics is keyed by memory id alone; `user` is an ordinary column.
  datatype Row = Row(user: string, stability: real, difficulty: real, retrieval: real, storage: real,
                     importance: real, lastAccessed: Option<Days>, accessCount: int)

  datatype LogRow = LogRow(id: Id, user: string, grade: int, signal: string, retrievability: real)

  datatype Store = Store(rows: map<Id, Row>, log: seq<LogRow>)

  // `now` feeds the review, `stamped` (a later clock reading) goes into the row.
  datatype Call = Call(id: Id, user: string, grade: int, signal: string, now: Days, stamped: Days)

  datatype Failure = BadGrade | OtherUsersRow | DomainError | DivisionByZero
  datatype Result<+T> = Ok(value: T) | Err(failure: Failure)

  function NewRow(user: string): Row {
    Row(user, 1.0, 5.0, 1.0, 0.5, 1.0, None, 0)
  }

  function StateOf(r: Row): MemoryState {
    MemoryState(r.stability, r.difficulty, r.retrieval, r.storage, r.lastAccessed, r.accessCount)
  }

  function GradeOf(grade: int): Option<Grade> {
    if grade == 1 then Some(Again) else if grade == 2 then Some(Hard)
    else if grade == 3 then Some(Good) else if grade == 4 then Some(Easy) else None
  }

  // The caller's row, or the new one that would be inserted; inserting over another user's
  // row violates the key.
  function Found(rows: map<Id, Row>, id: Id, user: string): Result<Row> {
    if id !in rows then Ok(NewRow(user)) else if rows[id].user == user then Ok(rows[id]) else Err(OtherUsersRow)
  }

  function ReviewedRow(m: Math, r: Row, g: Grade, call: Call): Row
    requires r.storage != -1.0
  {
    var s := Review(m, StateOf(r), g, call.now).newState;
    r.(stability := s.stability, difficulty := s.difficulty, retrieval := s.retrieval, storage := s.storage,
       lastAccessed := Some(call.stamped), accessCount := r.accessCount + 1)
  }

  function CurrentRecall(m: Math, r: Row, now: Days): real {
    Retrievability(m, Elapsed(StateOf(r), now), r.stability)
  }

  // Whether the review takes powers only where they are real numbers. A row that was imported
  // may hold any numbers.
  predicate InDomain(r: Row, g: Grade) {
    || r.accessCount == 0
    || (if g.Again? then r.difficulty > 0.0 && r.stability >= -1.0 else r.stability > 0.0)
  }

  function Promote(m: Math, st: Store, call: Call): Result<Store> {
    match Found(st.rows, call.id, call.user)
    case Err(e) => Err(e)
    case Ok(row) =>
      match GradeOf(call.grade)
      case None => Err(BadGrade)
      case Some(g) =>
        if !InDomain(row, g) then Err(DomainError) else
        if row.storage == -1.0 then Err(DivisionByZero) else
        Ok(Store(st.rows[call.id := ReviewedRow(m, row, g, call)],
                 st.log + [LogRow(call.id, call.user, call.grade, call.signal, CurrentRecall(m, row, call.now))]))
  }

  lemma NeverReviewed(m: Math, r: Row, now: Days)
    ensures CurrentRecall(m, r, now) ==
      if r.lastAccessed == None then 1.0 else Retrievability(m, now - r.lastAccessed.value, r.stability)
  {
  }

  // ---- What the store keeps ----

  function CountIn(log: seq<LogRow>, id: Id): nat {
    if log == [] then 0 else CountIn(log[..|log| - 1], id) + (if log[|log| - 1].id == id then 1 else 0)
  }

  // Failures logged for a memory since its last success.
  function StreakIn(log: seq<LogRow>, id: Id): nat {
    if log == [] then 0 else
      var rest := StreakIn(log[..|log| - 1], id);
      var last := log[|log| - 1];
      if last.id != id then rest else if last.grade == 1 then rest + 1 else 0
  }

  // A memory's row is a sane review state bounded by its own logged failures, and its access
  // count is the number of its log rows; a memory without a row has none.
  predicate ConsistentAt(st: Store, id: Id) {
    if id in st.rows then
      && Sane(StateOf(st.rows[id]))
      && StorageBound(StateOf(st.rows[id]), StreakIn(st.log, id))
      && st.rows[id].accessCount == CountIn(st.log, id)
    else CountIn(st.log, id) == 0 && StreakIn(st.log, id) == 0
  }

  ghost predicate Consistent(st: Store) {
    forall id: Id :: ConsistentAt(st, id)
  }

  lemma LogSnoc(log: seq<LogRow>, l: LogRow, id: Id)
    ensures CountIn(log + [l], id) == CountIn(log, id) + (if l.id == id then 1 else 0)
    ensures StreakIn(log + [l], id) ==
      if l.id != id then StreakIn(log, id) else if l.grade == 1 then StreakIn(log, id) + 1 else 0
  {
    assert (log + [l])[..|log|] == log;
  }

  lemma ReviewedRowSane(m: Math, r: Row, g: Grade, call: Call, failures: nat)
    requires Laws(m) && Sane(StateOf(r)) && StorageBound(StateOf(r), failures)
    ensures var r' := ReviewedRow(m, r, g, call);
      Sane(StateOf(r')) && StorageBound(StateOf(r'), Streak(failures, g)) && r'.accessCount == r.accessCount + 1
  {
    StepSane(m, StateOf(r), g, call.now, failures);
    hide Review, Laws;
  }

  lemma PromoteConsistentAt(m: Math, st: Store, call: Call, id: Id)
    requires Laws(m) && ConsistentAt(st, id)
    ensures Promote(m, st, call).Ok? ==> ConsistentAt(Promote(m, st, call).value, id)
  {
    var result := Promote(m, st, call);
    if result.Ok? {
      LogSnoc(st.log, result.value.log[|st.log|], id);
      if id == call.id {
        ReviewedRowSane(m, Found(st.rows, id, call.user).value, GradeOf(call.grade).value, call, StreakIn(st.log, id));
      }
      hide Laws, ReviewedRow, StorageBound, CurrentRecall, Sane, CountIn, StreakIn;
    }
  }

  lemma PromoteConsistent(m: Math, st: Store, call: Call)
    requires Laws(m) && Consistent(st)
    ensures Promote(m, st, call).Ok? ==> Consistent(Promote(m, st, call).value)
  {
    hide Laws, Promote, ConsistentAt;
    if Promote(m, st, call).Ok? {
      forall id: Id ensures ConsistentAt(Promote(m, st, call).value, id) {
        PromoteConsistentAt(m, st, call, id);
      }
    }
  }

  lemma NewRowConsistent(st: Store, id: Id, user: string)
    requires Consistent(st) && id !in st.rows
    ensures Consistent(st.(rows := st.rows[id := NewRow(user)]))
  {
    var st' := st.(rows := st.rows[id := NewRow(user)]);
    forall o: Id ensures ConsistentAt(st', o) {
      assert ConsistentAt(st, o);
    }
  }

  // A stored row that makes a review fail.
  predicate Blocks(r: Row, user: string, g: Grade) {
    r.user != user || !InDomain(r, g) || r.storage == -1.0
  }

  // A failed call changes nothing.
  function After(m: Math, st: Store, call: Call): Store {
    var result := Promote(m, st, call);
    if result.Ok? then result.value else st
  }

  // A review call, or a scoring call, which may insert a row.
  datatype Step = Reviewed(call: Call) | Scored(id: Id, user: string)

  function StepAfter(m: Math, st: Store, step: Step): Store {
    match step
    case Reviewed(call) => After(m, st, call)
    case Scored(id, user) => if id in st.rows then st else st.(rows := st.rows[id := NewRow(user)])
  }

  lemma StepConsistent(m: Math, st: Store, step: Step)
    requires Laws(m) && Consistent(st)
    ensures Consistent(StepAfter(m, st, step))
  {
    match step
    case Reviewed(call) => PromoteConsistent(m, st, call);
    case Scored(id, user) =>
      if id !in st.rows {
        NewRowConsistent(st, id, user);
      }
  }

  ghost function RunSteps(m: Math, st: Store, steps: seq<Step>): (e: Store)
    requires Laws(m) && Consistent(st)
    ensures Consistent(e)
    decreases |steps|
  {
    if steps == [] then st
    else
      assert Consistent(StepAfter(m, st, steps[0])) by { StepConsistent(m, st, steps[0]); }
      RunSteps(m, StepAfter(m, st, steps[0]), steps[1..])
  }

  // A call succeeds exactly when its grade is one of four, no other user owns the row, and the
  // row's numbers are ones that the review can take powers of and divide by.
  lemma PromoteSucceedsIff(m: Math, st: Store, call: Call)
    ensures Promote(m, st, call).Ok? <==>
      && 1 <= call.grade <= 4
      && (call.id in st.rows ==>
            var row := st.rows[call.id];
            && row.user == call.user && row.storage != -1.0
            && (row.accessCount == 0
                || (if call.grade == 1 then row.difficulty > 0.0 && row.stability >= -1.0 else row.stability > 0.0)))
  {
  }

  // In a consistent store the numbers never are in the way.
  lemma ConsistentSucceedsIff(m: Math, st: Store, call: Call)
    requires Consistent(st)
    ensures Promote(m, st, call).Ok? <==>
      1 <= call.grade <= 4 && (call.id in st.rows ==> st.rows[call.id].user == call.user)
  {
    PromoteSucceedsIff(m, st, call);
    assert ConsistentAt(st, call.id);
    hide Promote;
  }

  // ---- One user per memory ----

  // The logged reviews of a memory are all by the user of its row.
  ghost predicate Owned(st: Store) {
    forall l | l in st.log :: l.id in st.rows && st.rows[l.id].user == l.user
  }

  lemma StepOwned(m: Math, st: Store, step: Step)
    requires Owned(st)
    ensures Owned(StepAfter(m, st, step))
    ensures var e := StepAfter(m, st, step);
      forall id | id in st.rows :: id in e.rows && e.rows[id].user == st.rows[id].user
  {
    hide Review, Retrievability, InDomain;
  }

  lemma RejectsOthers(m: Math, st: Store, call: Call)
    ensures call.id in st.rows && st.rows[call.id].user != call.user ==> Promote(m, st, call) == Err(OtherUsersRow)
  {
  }

  // In every run of reviews and scorings all reviews of one memory are by one user, and from the
  // moment it has a row every call by anybody else fails.
  lemma {:induction false} OneReviewerPerMemory(m: Math, st: Store, steps: seq<Step>, call: Call)
    requires Laws(m) && Consistent(st) && Owned(st)
    ensures var e := RunSteps(m, st, steps);
      && (forall k, l | k in e.log && l in e.log && k.id == l.id :: k.user == l.user)
      && (call.id in st.rows && st.rows[call.id].user != call.user ==> Promote(m, e, call) == Err(OtherUsersRow))
    decreases |steps|
  {
    hide Promote, Consistent, Laws;
    if steps == [] {
      RejectsOthers(m, st, call);
    } else {
      StepConsistent(m, st, steps[0]);
      StepOwned(m, st, steps[0]);
      OneReviewerPerMemory(m, StepAfter(m, st, steps[0]), steps[1..], call);
    }
  }

  // ---- Ranking ----

  datatype Breakdown = Breakdown(composite: real, fsrs: real, recall: real, storage: real)

  // A zero importance weight counts as one.
  function Weight(r: Row): real { if r.importance != 0.0 then r.importance else 1.0 }

  function ScoreOf(m: Math, r: Row, semantic: real, now: Days): Breakdown {
    var recall := CurrentRecall(m, r, now);
    var fsrs := CalculateMemoryScore(recall, r.storage, Weight(r));
    Breakdown(0.6 * semantic + 0.4 * fsrs, fsrs, recall, r.storage)
  }

  lemma CompositeOf(m: Math, r: Row, failures: nat, semantic: real, now: Days)
    requires Laws(m) && Weight(r) >= 0.0
    requires Sane(StateOf(r)) && StorageBound(StateOf(r), failures)
    ensures 0.06 * Weight(r) <= ScoreOf(m, r, semantic, now).composite - 0.6 * semantic
      <= 0.4 * ((1.0 + 0.015 * failures as real) * Weight(r))
  {
    RetrievabilityRange(m, Elapsed(StateOf(r), now), r.stability);
    hide Laws, Retrievability;
    WeightedBound(CurrentRecall(m, r, now), r.storage, Weight(r), failures);
  }

  // After any run of reviews and scorings from any consistent store, what the history adds to the
  // semantic part of a composite score lies within bounds set by the memory's importance and its
  // logged failures.
  lemma CompositeBound(m: Math, st: Store, steps: seq<Step>, id: Id, semantic: real, now: Days)
    requires Laws(m) && Consistent(st)
    ensures var e := RunSteps(m, st, steps);
      id in e.rows && Weight(e.rows[id]) >= 0.0 ==>
        0.06 * Weight(e.rows[id]) <= ScoreOf(m, e.rows[id], semantic, now).composite - 0.6 * semantic
        <= 0.4 * ((1.0 + 0.015 * StreakIn(e.log, id) as real) * Weight(e.rows[id]))
  {
    hide Laws, Sane, StorageBound, ScoreOf, Weight, RunSteps;
    var e := RunSteps(m, st, steps);
    assert ConsistentAt(e, id);
    if id in e.rows && Weight(e.rows[id]) >= 0.0 {
      CompositeOf(m, e.rows[id], StreakIn(e.log, id), semantic, now);
    }
  }

  // ---- The time since the last review ----

  // What a review writes, field by field: the new strengths, the later clock reading and one more
  // access into the caller's row; the grade and the recall before the review into the log.
  lemma PromoteWrites(m: Math, st: Store, call: Call)
    requires Promote(m, st, call).Ok?
    ensures var e := Promote(m, st, call).value;
      var row := if call.id in st.rows then st.rows[call.id] else Row(call.user, 1.0, 5.0, 1.0, 0.5, 1.0, None, 0);
      var before := MemoryState(row.stability, row.difficulty, row.retrieval, row.storage, row.lastAccessed,
                                row.accessCount);
      var g := match call.grade case 1 => Again case 2 => Hard case 3 => Good case _ => Easy;
      && row.user == call.user && row.storage != -1.0
      && (var s := Review(m, before, g, call.now).newState;
          e.rows == st.rows[call.id := Row(call.user, s.stability, s.difficulty, s.retrieval, s.storage, row.importance,
                                           Some(call.stamped), row.accessCount + 1)])
      && e.log == st.log + [LogRow(call.id, call.user, call.grade, call.signal,
           if row.lastAccessed == None then 1.0
           else Retrievability(m, call.now - row.lastAccessed.value, row.stability))]
  {
    hide Review, Retrievability;
    var row := Found(st.rows, call.id, call.user).value;
    NeverReviewed(m, row, call.now);
  }

  // The score of a row, field by field.
  lemma ScoreReports(m: Math, r: Row, semantic: real, now: Days)
    ensures var b := ScoreOf(m, r, semantic, now);
      && b.recall == (if r.lastAccessed == None then 1.0
                      else Retrievability(m, now - r.lastAccessed.value, r.stability))
      && b.storage == r.storage
      && b.fsrs == (0.7 * b.recall + 0.3 * r.storage) * (if r.importance == 0.0 then 1.0 else r.importance)
      && b.composite == 0.6 * semantic + 0.4 * b.fsrs
  {
    NeverReviewed(m, r, now);
    hide Retrievability;
  }

  // A memory that is new or was never reviewed scores by a fixed share.
  lemma NewMemoryScores(m: Math, user: string, semantic: real, now: Days)
    ensures ScoreOf(m, NewRow(user), semantic, now).composite == 0.6 * semantic + 0.34
  {
    ScoreReports(m, NewRow(user), semantic, now);
  }

  // As the clock runs on, the recall that scoring reports and reviews log only falls, and so does the
  // composite score of a memory whose weight is not negative.
  lemma RecallFades(m: Math, st: Store, call: Call, r: Row, semantic: real, now: Days, later: Days)
    requires Laws(m) && now <= later && r.stability > 0.0
    ensures ScoreOf(m, r, semantic, later).recall <= ScoreOf(m, r, semantic, now).recall
    ensures r.importance >= 0.0 ==> ScoreOf(m, r, semantic, later).composite <= ScoreOf(m, r, semantic, now).composite
    ensures call.id in st.rows && st.rows[call.id] == r && Promote(m, st, call.(now := now)).Ok? ==>
      var first, second := Promote(m, st, call.(now := now)), Promote(m, st, call.(now := later));
      second.Ok? && second.value.log[|st.log|].retrievability <= first.value.log[|st.log|].retrievability
  {
    if r.lastAccessed.Some? {
      var last := r.lastAccessed.value;
      RetrievabilityMonotone(m, now - last, later - last, r.stability, r.stability);
    }
    hide Laws, Retrievability, Review;
    ScoreReports(m, r, semantic, now);
    ScoreReports(m, r, semantic, later);
    if r.importance >= 0.0 {
      var a, b := ScoreOf(m, r, semantic, later), ScoreOf(m, r, semantic, now);
      MulMono(0.7 * a.recall + 0.3 * r.storage, 0.7 * b.recall + 0.3 * r.storage, Weight(r));
    }
  }

  // A memory that was reviewed is down to a recall of exactly 0.9 its stability's number of days after
  // the review was stored: that is what scoring reports then, and what a review then logs.
  lemma ReviewedFadesToNinety(m: Math, st: Store, call: Call, next: Call, semantic: real)
    requires Laws(m) && Consistent(st) && Promote(m, st, call).Ok?
    requires next.id == call.id && next.user == call.user && 1 <= next.grade <= 4
    requires next.now == call.stamped + Promote(m, st, call).value.rows[call.id].stability
    ensures var e := Promote(m, st, call).value;
      && ScoreOf(m, e.rows[call.id], semantic, next.now).recall == 0.9
      && Promote(m, e, next).Ok?
      && Promote(m, e, next).value.log[|e.log|] == LogRow(next.id, next.user, next.grade, next.signal, 0.9)
  {
    PromoteConsistent(m, st, call);
    PromoteWrites(m, st, call);
    var e := Promote(m, st, call).value;
    var row := e.rows[call.id];
    ConsistentSucceedsIff(m, e, next);
    PromoteWrites(m, e, next);
    assert ConsistentAt(e, call.id);
    RecallAtStability(m, row.stability);
    ScoreReports(m, row, semantic, next.now);
    hide Laws, Promote, Consistent, Review, Retrievability;
  }

  class DynamicsService {
    var store: Store
    const m: Math

    constructor (m: Math)
      ensures store == Store(map[], []) && this.m == m
    {
      this.m := m;
      store := Store(map[], []);
    }

    method PromoteMemory(call: Call) returns (result: Result<Row>)
      modifies this
      ensures Promote(m, old(store), call).Ok? ==>
        store == Promote(m, old(store), call).value && result == Ok(store.rows[call.id])
      ensures Promote(m, old(store), call).Err? ==>
        store == old(store) && result == Err(Promote(m, old(store), call).failure)
      ensures Laws(m) && old(Consistent(store)) ==> Consistent(store)
    {
      if Laws(m) && Consistent(store) {
        PromoteConsistent(m, store, call);
      }
      var row: Row;
      if call.id in store.rows && store.rows[call.id].user == call.user {
        row := store.rows[call.id];
      } else if call.id in store.rows {
        return Err(OtherUsersRow);
      } else {
        row := NewRow(call.user);
      }
      var recall := CurrentRecall(m, row, call.now);
      var grade := GradeOf(call.grade);
      if grade.None? {
        return Err(BadGrade);
      }
      if !InDomain(row, grade.value) {
        return Err(DomainError);
      }
      if row.storage == -1.0 {
        return Err(DivisionByZero);
      }
      row := ReviewedRow(m, row, grade.value, call);
      store := Store(store.rows[call.id := row],
                     store.log + [LogRow(call.id, call.user, call.grade, call.signal, recall)]);
      return Ok(row);
    }

    method DemoteMemory(id: Id, user: string, reason: string, now: Days, stamped: Days) returns (result: Result<Row>)
      modifies this
      ensures var call := Call(id, user, 1, reason, now, stamped);
        store == After(m, old(store), call)
      ensures result.Err? <==> id in old(store).rows && Blocks(old(store).rows[id], user, Again)
      ensures Laws(m) && old(Consistent(store)) ==> Consistent(store)
    {
      result := PromoteMemory(Call(id, user, 1, reason, now, stamped));
    }

    // Scoring may create the row, and changes nothing else.
    method ScoreMemory(id: Id, user: string, semantic: real, now: Days) returns (result: Result<Breakdown>)
      modifies this
      ensures store.log == old(store).log
      ensures result.Err? <==> id in old(store).rows && old(store).rows[id].user != user
      ensures result.Err? ==> store == old(store)
      ensures result.Ok? ==>
        && store.rows == (if id in old(store).rows then old(store).rows else old(store).rows[id := NewRow(user)])
        && result.value == ScoreOf(m, store.rows[id], semantic, now)
      ensures old(Consistent(store)) ==> Consistent(store)
      ensures store == StepAfter(m, old(store), Scored(id, user))
    {
      var found := Found(store.rows, id, user);
      if found.Err? {
        return Err(found.failure);
      }
      if id !in store.rows {
        if Consistent(store) {
          NewRowConsistent(store, id, user);
        }
        store := store.(rows := store.rows[id := found.value]);
      }
      return Ok(ScoreOf(m, store.rows[id], semantic, now));
    }
  }
}
