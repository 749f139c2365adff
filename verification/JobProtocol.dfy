// Many workers over one job table. A run is any interleaving of their steps, of enqueues and
// of clock ticks; a worker may crash (forget its job) at any point.
module JobProtocol {
  import opened Prelude
  import opened JobQueue

  type WorkerId = nat

  // A busy worker: the job it took, the lease end it knows, and the row once reloaded.
  datatype Hold = Hold(id: JobId, deadline: Time, loaded: Option<Job>)

  datatype Config = Config(maxAttempts: nat, leaseSeconds: int, kinds: set<string>)

  // `claims` and `lost` record history: the claims of each job, and the jobs whose holder
  // crashed on the last attempt.
  datatype State = State(now: Time, table: Table, busy: map<WorkerId, Hold>,
                         claims: map<JobId, nat>, lost: set<JobId>)

  datatype Action =
    | Tick(to: Time)
    | Enqueue(id: JobId, kind: string, user: string, payload: string, tenant: string)
    | Claim(w: WorkerId, id: JobId, requested: Option<int>, started: Time, locked: set<JobId>)
    | Reload(w: WorkerId)
    | Extend(w: WorkerId, additional: int)
    | Settle(w: WorkerId, outcome: Outcome)
    | Crash(w: WorkerId)

  function Init(now: Time): State {
    State(now, map[], map[], map[], {})
  }

  ghost predicate Enabled(c: Config, s: State, a: Action) {
    match a
    case Tick(to) => s.now <= to
    case Enqueue(id, _, _, _, _) => id !in s.table
    case Claim(w, id, _, started, locked) =>
      w !in s.busy && started <= s.now && OldestOpen(s.table, locked, s.now, c.maxAttempts, id)
    case Reload(w) => w in s.busy && s.busy[w].id in s.table && s.busy[w].loaded.None?
    case Extend(w, _) => w in s.busy && s.busy[w].loaded.Some?
    case Settle(w, _) => w in s.busy && s.busy[w].loaded.Some?
    case Crash(w) => w in s.busy
  }

  ghost function Apply(c: Config, s: State, a: Action): State
    requires Enabled(c, s, a)
  {
    match a
    case Tick(to) => s.(now := to)
    case Enqueue(id, kind, user, payload, tenant) =>
      s.(table := s.table[id := NewJob(tenant, kind, user, payload, s.now)], claims := s.claims[id := 0])
    case Claim(w, id, requested, started, _) =>
      var lease := started + LeaseSeconds(requested, c.leaseSeconds);
      s.(table := ClaimRow(s.table, id, lease), busy := s.busy[w := Hold(id, lease, None)],
         claims := s.claims[id := (if id in s.claims then s.claims[id] else 0) + 1])
    case Reload(w) =>
      s.(busy := s.busy[w := s.busy[w].(loaded := Some(s.table[s.busy[w].id]))])
    case Extend(w, additional) =>
      var h := s.busy[w];
      var table := ExtendRow(s.table, h.id, s.now + additional);
      if h.id in s.table && s.table[h.id].status.Pending? then
        s.(table := table, busy := s.busy[w := h.(deadline := s.now + additional)])
      else s
    case Settle(w, outcome) =>
      var h := s.busy[w];
      s.(table := SettleRow(s.table, h.id, h.loaded.value, c.kinds, outcome, s.now, c.maxAttempts),
         busy := s.busy - {w})
    case Crash(w) =>
      var id := s.busy[w].id;
      s.(busy := s.busy - {w},
         lost := if id in s.table && s.table[id].status.Pending? && s.table[id].attempts >= c.maxAttempts
                 then s.lost + {id} else s.lost)
  }

  ghost predicate Legal(c: Config, s: State, acts: seq<Action>)
    decreases |acts|
  {
    acts == [] || (Enabled(c, s, acts[0]) && Legal(c, Apply(c, s, acts[0]), acts[1..]))
  }

  ghost function Run(c: Config, s: State, acts: seq<Action>): State
    requires Legal(c, s, acts)
    decreases |acts|
  {
    if acts == [] then s else Run(c, Apply(c, s, acts[0]), acts[1..])
  }

  // ---- What holds in every run, stale workers and crashes included ----

  ghost predicate BoundedRow(c: Config, s: State, id: JobId) {
    id in s.table && id in s.claims ==>
      && s.table[id].attempts == s.claims[id]
      && s.claims[id] <= c.maxAttempts
      && (!s.table[id].status.Pending? ==> s.table[id].leasedUntil.None? && s.claims[id] > 0)
  }

  // What a busy worker holds exists and was claimed, and the tenant it loaded is the row's.
  ghost predicate BoundedHold(s: State, h: Hold) {
    && h.id in s.table && h.id in s.claims && s.claims[h.id] > 0
    && (h.loaded.Some? ==> h.loaded.value.tenant == s.table[h.id].tenant)
  }

  ghost predicate Bounded(c: Config, s: State) {
    && s.claims.Keys == s.table.Keys
    && (forall id | id in s.table :: BoundedRow(c, s, id))
    && (forall w | w in s.busy :: BoundedHold(s, s.busy[w]))
  }

  lemma StepBoundedRow(c: Config, s: State, a: Action, id: JobId)
    requires Bounded(c, s) && Enabled(c, s, a)
    ensures BoundedRow(c, Apply(c, s, a), id)
  {
    assert id in s.table ==> BoundedRow(c, s, id);
  }

  lemma StepBoundedHold(c: Config, s: State, a: Action, w: WorkerId)
    requires Bounded(c, s) && Enabled(c, s, a) && w in Apply(c, s, a).busy
    ensures BoundedHold(Apply(c, s, a), Apply(c, s, a).busy[w])
  {
    hide BoundedRow;
    assert w in s.busy ==> BoundedHold(s, s.busy[w]);
  }

  lemma StepBounded(c: Config, s: State, a: Action)
    requires Bounded(c, s) && Enabled(c, s, a)
    ensures Bounded(c, Apply(c, s, a))
  {
    hide BoundedRow, BoundedHold;
    forall id | id in Apply(c, s, a).table ensures BoundedRow(c, Apply(c, s, a), id) {
      StepBoundedRow(c, s, a, id);
    }
    forall w | w in Apply(c, s, a).busy ensures BoundedHold(Apply(c, s, a), Apply(c, s, a).busy[w]) {
      StepBoundedHold(c, s, a, w);
    }
  }

  // Attempts equal claims and never pass the maximum.
  lemma {:induction false} AttemptsAreClaims(c: Config, s: State, acts: seq<Action>)
    requires Bounded(c, s) && Legal(c, s, acts)
    ensures Bounded(c, Run(c, s, acts))
    decreases |acts|
  {
    if acts == [] {
    } else {
      StepBounded(c, s, acts[0]);
      AttemptsAreClaims(c, Apply(c, s, acts[0]), acts[1..]);
    }
  }

  // A job that has left pending stays out of pending and is never claimed again.
  lemma {:induction false} NeverBackToPending(c: Config, s: State, acts: seq<Action>, id: JobId)
    requires Bounded(c, s) && Legal(c, s, acts)
    requires id in s.table && !s.table[id].status.Pending?
    ensures var e := Run(c, s, acts);
      id in e.table && id in e.claims && !e.table[id].status.Pending? && e.claims[id] == s.claims[id]
    decreases |acts|
  {
    if acts == [] {
    } else {
      StepBounded(c, s, acts[0]);
      NeverBackToPending(c, Apply(c, s, acts[0]), acts[1..], id);
    }
  }

  // ---- First come, first served ----

  // What the caller asked for, and the clock at that moment.
  datatype Request = Request(kind: string, user: string, payload: string, tenant: string, at: Time)

  // The request by which a run enqueues a job.
  ghost function RequestOf(c: Config, s: State, acts: seq<Action>, id: JobId): Option<Request>
    requires Legal(c, s, acts)
    decreases |acts|
  {
    if acts == [] then None
    else if acts[0].Enqueue? && acts[0].id == id then
      Some(Request(acts[0].kind, acts[0].user, acts[0].payload, acts[0].tenant, s.now))
    else RequestOf(c, Apply(c, s, acts[0]), acts[1..], id)
  }

  // An enqueue adds one row that asks for what the caller asked for; nothing else changes.
  lemma EnqueueAddsTheRequest(c: Config, s: State, a: Action)
    requires a.Enqueue? && Enabled(c, s, a)
    ensures Apply(c, s, a) == s.(
      table := s.table[a.id := Job(a.tenant, a.kind, a.user, a.payload, s.now, Pending, 0, None, None, None, None)],
      claims := s.claims[a.id := 0])
  {
  }

  ghost predicate Answers(job: Job, r: Request) {
    && job.kind == r.kind && job.user == r.user && job.payload == r.payload && job.tenant == r.tenant
    && job.createdAt == r.at
  }

  ghost predicate SameRequest(s: State, s': State, id: JobId) {
    id in s.table ==> id in s'.table && forall r :: Answers(s.table[id], r) ==> Answers(s'.table[id], r)
  }

  lemma StepKeepsRequest(c: Config, s: State, a: Action, id: JobId)
    requires Enabled(c, s, a)
    ensures SameRequest(s, Apply(c, s, a), id)
    ensures id in Apply(c, s, a).table && id !in s.table ==> a.Enqueue? && a.id == id
  {
  }

  // In every run, crashes and stale workers included, a job's row goes on asking for what its
  // caller asked for, and tells when that was.
  lemma {:induction false} RowsKeepTheirRequest(c: Config, s: State, acts: seq<Action>, id: JobId)
    requires Legal(c, s, acts)
    ensures var e, r := Run(c, s, acts), RequestOf(c, s, acts, id);
      && (r.Some? ==> id in e.table && Answers(e.table[id], r.value))
      && (r.None? ==> (id in e.table <==> id in s.table))
      && SameRequest(s, e, id)
    decreases |acts|
  {
    if acts == [] {
    } else {
      var s' := Apply(c, s, acts[0]);
      RowsKeepTheirRequest(c, s', acts[1..], id);
      StepKeepsRequest(c, s, acts[0], id);
    }
  }

  // The job may be taken now: pending, not leased beyond this moment, with an attempt left.
  predicate Waiting(c: Config, s: State, id: JobId) {
    && id in s.table && s.table[id].status == Pending && s.table[id].attempts < c.maxAttempts
    && (s.table[id].leasedUntil == None || (s.table[id].leasedUntil.Some? && s.table[id].leasedUntil.value < s.now))
  }

  // First come, first served: in every run from the start, a claim by a free worker can take a job
  // exactly when that is waiting and unlocked, and no other such job was enqueued before it.
  lemma FirstComeFirstServed(c: Config, now: Time, acts: seq<Action>, claim: Action)
    requires Legal(c, Init(now), acts) && claim.Claim?
    ensures var e := Run(c, Init(now), acts);
      Enabled(c, e, claim) <==>
      && claim.w !in e.busy && claim.started <= e.now
      && Waiting(c, e, claim.id) && claim.id !in claim.locked
      && RequestOf(c, Init(now), acts, claim.id).Some?
      && (forall other | Waiting(c, e, other) && other !in claim.locked ::
            RequestOf(c, Init(now), acts, other).Some?
            && RequestOf(c, Init(now), acts, claim.id).value.at <= RequestOf(c, Init(now), acts, other).value.at)
  {
    hide Legal, Run, RequestOf;
    var e := Run(c, Init(now), acts);
    forall id ensures id in e.table ==>
        var r := RequestOf(c, Init(now), acts, id); r.Some? && e.table[id].createdAt == r.value.at
    {
      RowsKeepTheirRequest(c, Init(now), acts, id);
    }
    forall id
      ensures Waiting(c, e, id) && id !in claim.locked <==> Open(e.table, claim.locked, e.now, c.maxAttempts, id)
    {
    }
  }

  // So while a job is waiting and unlocked, no claim takes one that was enqueued after it.
  lemma LaterJobsWait(c: Config, now: Time, acts: seq<Action>, claim: Action, first: JobId, second: JobId)
    requires Legal(c, Init(now), acts) && claim.Claim? && Enabled(c, Run(c, Init(now), acts), claim)
    requires RequestOf(c, Init(now), acts, first).Some? && RequestOf(c, Init(now), acts, second).Some?
    requires RequestOf(c, Init(now), acts, first).value.at < RequestOf(c, Init(now), acts, second).value.at
    requires Waiting(c, Run(c, Init(now), acts), first) && first !in claim.locked
    ensures claim.id != second
  {
    FirstComeFirstServed(c, now, acts, claim);
  }

  // What a claim, an extension and a settle write, field by field.
  lemma ClaimWrites(c: Config, s: State, a: Action)
    requires a.Claim? && Enabled(c, s, a)
    ensures var seconds := if a.requested == None || a.requested.value == 0 then c.leaseSeconds else a.requested.value;
      var s' := Apply(c, s, a);
      && s'.table == s.table[a.id := s.table[a.id].(leasedUntil := Some(a.started + seconds),
                                                    attempts := s.table[a.id].attempts + 1)]
      && s'.busy == s.busy[a.w := Hold(a.id, a.started + seconds, None)] && s'.now == s.now
  {
  }

  lemma ExtendWrites(c: Config, s: State, a: Action)
    requires a.Extend? && Enabled(c, s, a) && BoundedHold(s, s.busy[a.w])
    ensures var h, s', until := s.busy[a.w], Apply(c, s, a), s.now + a.additional;
      if s.table[h.id].status == Pending then
        s' == s.(table := s.table[h.id := s.table[h.id].(leasedUntil := Some(until))],
                 busy := s.busy[a.w := h.(deadline := until)])
      else s' == s
  {
  }

  // A settle never looks at the row it writes: the loaded copy and the outcome decide.
  lemma SettleWrites(c: Config, s: State, a: Action)
    requires a.Settle? && Enabled(c, s, a) && BoundedHold(s, s.busy[a.w])
    ensures var id, loaded := s.busy[a.w].id, s.busy[a.w].loaded.value;
      var row := s.table[id].(leasedUntil := None);
      Apply(c, s, a) == s.(busy := s.busy - {a.w}, table := s.table[id :=
        if loaded.kind !in c.kinds then
          row.(status := Failed, error := Some("unknown job kind: " + loaded.kind), completedAt := Some(s.now))
        else if a.outcome.Returned? then
          row.(status := Completed, result := Some(a.outcome.result), completedAt := Some(s.now))
        else if loaded.attempts >= c.maxAttempts then
          row.(status := Failed, error := Some(a.outcome.error), completedAt := Some(s.now))
        else row.(error := Some(a.outcome.error))])
  {
  }

  // ---- Progress: what is left to try ----

  function Left(maxAttempts: nat, t: Table, id: JobId): nat {
    if id in t && t[id].status.Pending? && t[id].attempts <= maxAttempts then maxAttempts - t[id].attempts else 0
  }

  // The attempts that pending jobs have left, over the whole table.
  ghost function Budget(maxAttempts: nat, t: Table): nat {
    Sum(t.Keys, id => Left(maxAttempts, t, id))
  }

  lemma {:induction false} SumBelow<T(!new)>(s: set<T>, f: T -> nat, g: T -> nat)
    requires forall x | x in s :: f(x) <= g(x)
    ensures Sum(s, f) <= Sum(s, g)
    decreases s
  {
    if s == {} {
    } else {
      var x :| x in s;
      SumRemove(s, x, f);
      SumRemove(s, x, g);
      SumBelow(s - {x}, f, g);
    }
  }

  lemma BudgetOfClaim(maxAttempts: nat, t: Table, id: JobId, lease: Time)
    requires id in t && t[id].status.Pending? && t[id].attempts < maxAttempts
    ensures Budget(maxAttempts, ClaimRow(t, id, lease)) + 1 == Budget(maxAttempts, t)
  {
    var t' := ClaimRow(t, id, lease);
    assert t'.Keys == t.Keys;
    SumPoint(t.Keys, id, o => Left(maxAttempts, t, o), o => Left(maxAttempts, t', o));
  }

  lemma BudgetOfEnqueue(maxAttempts: nat, t: Table, id: JobId, job: Job)
    requires id !in t && job.status.Pending? && job.attempts == 0
    ensures Budget(maxAttempts, t[id := job]) == Budget(maxAttempts, t) + maxAttempts
  {
    var t' := t[id := job];
    SumRemove(t'.Keys, id, o => Left(maxAttempts, t', o));
    assert t'.Keys - {id} == t.Keys;
    SumSame(t.Keys, o => Left(maxAttempts, t, o), o => Left(maxAttempts, t', o));
  }

  lemma BudgetOfRest(maxAttempts: nat, t: Table, t': Table)
    requires t'.Keys == t.Keys
    requires forall id | id in t :: Left(maxAttempts, t', id) <= Left(maxAttempts, t, id)
    ensures Budget(maxAttempts, t') <= Budget(maxAttempts, t)
  {
    SumBelow(t.Keys, o => Left(maxAttempts, t', o), o => Left(maxAttempts, t, o));
  }

  // What one step may add to the number of claims still possible, less the claim it makes.
  function Allowance(c: Config, a: Action): nat { if a.Enqueue? then c.maxAttempts else 0 }
  function ClaimCount(a: Action): nat { if a.Claim? then 1 else 0 }

  // A claim lowers the budget by exactly one, an enqueue raises it by the attempt limit, and
  // no other step raises it.
  lemma StepBudget(c: Config, s: State, a: Action)
    requires Bounded(c, s) && Enabled(c, s, a)
    ensures ClaimCount(a) + Budget(c.maxAttempts, Apply(c, s, a).table)
         <= Budget(c.maxAttempts, s.table) + Allowance(c, a)
    ensures a.Claim? || a.Enqueue? ==>
      ClaimCount(a) + Budget(c.maxAttempts, Apply(c, s, a).table) == Budget(c.maxAttempts, s.table) + Allowance(c, a)
  {
    match a
    case Claim(_, id, requested, started, _) =>
      BudgetOfClaim(c.maxAttempts, s.table, id, started + LeaseSeconds(requested, c.leaseSeconds));
    case Enqueue(id, kind, user, payload, tenant) =>
      BudgetOfEnqueue(c.maxAttempts, s.table, id, NewJob(tenant, kind, user, payload, s.now));
    case _ =>
      BudgetOfRest(c.maxAttempts, s.table, Apply(c, s, a).table);
  }

  function Claims(acts: seq<Action>): nat {
    if acts == [] then 0 else ClaimCount(acts[0]) + Claims(acts[1..])
  }

  function Allowances(c: Config, acts: seq<Action>): nat {
    if acts == [] then 0 else Allowance(c, acts[0]) + Allowances(c, acts[1..])
  }

  // No run claims more often than its budget and its enqueues allow.
  lemma {:induction false} ClaimsAreBudgeted(c: Config, s: State, acts: seq<Action>)
    requires Bounded(c, s) && Legal(c, s, acts)
    ensures Claims(acts) + Budget(c.maxAttempts, Run(c, s, acts).table)
         <= Budget(c.maxAttempts, s.table) + Allowances(c, acts)
    decreases |acts|
  {
    if acts == [] {
    } else {
      StepBounded(c, s, acts[0]);
      StepBudget(c, s, acts[0]);
      ClaimsAreBudgeted(c, Apply(c, s, acts[0]), acts[1..]);
    }
  }

  // ---- What holds when every holder acts before its lease passes ----

  ghost predicate Timely(s: State) {
    forall w | w in s.busy :: s.now <= s.busy[w].deadline
  }

  ghost predicate TimelyRun(c: Config, s: State, acts: seq<Action>)
    requires Legal(c, s, acts)
    decreases |acts|
  {
    Timely(s) && (acts != [] ==> TimelyRun(c, Apply(c, s, acts[0]), acts[1..]))
  }

  ghost predicate Held(s: State, id: JobId) {
    exists w :: w in s.busy && s.busy[w].id == id
  }

  // Holders hold different jobs, and each one's row is pending and leased to it.
  ghost predicate Exclusive(s: State) {
    && (forall w, v | w in s.busy && v in s.busy && w != v :: s.busy[w].id != s.busy[v].id)
    && (forall w | w in s.busy ::
        var h := s.busy[w];
        && h.id in s.table
        && s.table[h.id].status.Pending? && s.table[h.id].leasedUntil == Some(h.deadline)
        && (h.loaded.Some? ==>
            && h.loaded.value.attempts == s.table[h.id].attempts
            && h.loaded.value.tenant == s.table[h.id].tenant
            && h.loaded.value.kind == s.table[h.id].kind))
  }

  lemma ClaimKeepsApart(c: Config, s: State, a: Action)
    requires Exclusive(s) && Timely(s) && Enabled(c, s, a) && a.Claim?
    ensures Exclusive(Apply(c, s, a))
  {
    forall w | w in s.busy ensures s.busy[w].id != a.id {
      assert s.table[s.busy[w].id].leasedUntil == Some(s.busy[w].deadline);
    }
  }

  lemma SettleKeepsApart(c: Config, s: State, a: Action)
    requires Exclusive(s) && Enabled(c, s, a) && a.Settle?
    ensures Exclusive(Apply(c, s, a))
  {
    var h, t := s.busy[a.w], Apply(c, s, a).table;
    assert t.Keys == s.table.Keys && forall id | id in t && id != h.id :: t[id] == s.table[id];
  }

  lemma RestKeepsApart(c: Config, s: State, a: Action)
    requires Exclusive(s) && Enabled(c, s, a) && !a.Claim? && !a.Settle?
    ensures Exclusive(Apply(c, s, a))
  {
  }

  lemma StepKeepsFinished(c: Config, s: State, a: Action)
    requires Exclusive(s) && Enabled(c, s, a)
    ensures forall id | id in s.table && !s.table[id].status.Pending? ::
      id in Apply(c, s, a).table && Apply(c, s, a).table[id] == s.table[id]
  {
  }

  lemma {:induction false} StepExclusive(c: Config, s: State, a: Action)
    requires Exclusive(s) && Timely(s) && Enabled(c, s, a)
    ensures Exclusive(Apply(c, s, a))
    ensures forall id | id in s.table && !s.table[id].status.Pending? ::
      id in Apply(c, s, a).table && Apply(c, s, a).table[id] == s.table[id]
  {
    hide Exclusive, Timely, Enabled;
    StepKeepsFinished(c, s, a);
    if a.Claim? {
      ClaimKeepsApart(c, s, a);
    } else if a.Settle? {
      SettleKeepsApart(c, s, a);
    } else {
      RestKeepsApart(c, s, a);
    }
  }

  // Mutual exclusion and final rows: in a timely run a job has at most one holder, and a
  // completed or failed row is never written again.
  lemma {:induction false} TimelyRunsAreExclusive(c: Config, s: State, acts: seq<Action>)
    requires Exclusive(s) && Legal(c, s, acts) && TimelyRun(c, s, acts)
    ensures Exclusive(Run(c, s, acts))
    ensures forall id | id in s.table && !s.table[id].status.Pending? ::
      id in Run(c, s, acts).table && Run(c, s, acts).table[id] == s.table[id]
    decreases |acts|
  {
    if acts == [] {
    } else {
      StepExclusive(c, s, acts[0]);
      TimelyRunsAreExclusive(c, Apply(c, s, acts[0]), acts[1..]);
    }
  }

  // Every lease belongs to a holder: true as long as no worker crashes.
  ghost predicate LeasesHeld(s: State) {
    forall id | id in s.table && s.table[id].leasedUntil.Some? :: Held(s, id)
  }

  // Exactly when a claim takes a job from under its holder: somebody still holds it. Without
  // crashes that is what the row itself shows, a lease that is still set though it has passed.
  lemma ClaimStealsIff(c: Config, s: State, a: Action)
    requires Exclusive(s) && a.Claim? && Enabled(c, s, a)
    ensures !Exclusive(Apply(c, s, a)) <==> Held(s, a.id)
    ensures Held(s, a.id) ==> s.table[a.id].leasedUntil.Some? && s.table[a.id].leasedUntil.value < s.now
    ensures LeasesHeld(s) ==> (!Exclusive(Apply(c, s, a)) <==> s.table[a.id].leasedUntil.Some?)
  {
    var s' := Apply(c, s, a);
    if Held(s, a.id) {
      var w :| w in s.busy && s.busy[w].id == a.id;
      assert w in s'.busy && a.w in s'.busy && s'.busy[w].id == s'.busy[a.w].id;
    }
  }

  ghost predicate Apart(s: State) {
    forall w, v | w in s.busy && v in s.busy && w != v :: s.busy[w].id != s.busy[v].id
  }

  ghost predicate AlwaysApart(c: Config, s: State, acts: seq<Action>)
    requires Legal(c, s, acts)
    decreases |acts|
  {
    Apart(s) && (acts != [] ==> AlwaysApart(c, Apply(c, s, acts[0]), acts[1..]))
  }

  // No claim of the run takes a job that is still held.
  ghost predicate NeverSteals(c: Config, s: State, acts: seq<Action>)
    requires Legal(c, s, acts)
    decreases |acts|
  {
    acts != [] ==>
      && (acts[0].Claim? ==> !Held(s, acts[0].id))
      && NeverSteals(c, Apply(c, s, acts[0]), acts[1..])
  }

  // Every row that the run claims has no lease set, not even a passed one.
  ghost predicate ClaimsUnleased(c: Config, s: State, acts: seq<Action>)
    requires Legal(c, s, acts)
    decreases |acts|
  {
    acts != [] ==>
      && (acts[0].Claim? ==> acts[0].id in s.table && s.table[acts[0].id].leasedUntil.None?)
      && ClaimsUnleased(c, Apply(c, s, acts[0]), acts[1..])
  }

  lemma StealIsNotApart(c: Config, s: State, a: Action)
    requires a.Claim? && Enabled(c, s, a) && Held(s, a.id)
    ensures !Apart(Apply(c, s, a))
  {
    var s' := Apply(c, s, a);
    var w :| w in s.busy && s.busy[w].id == a.id;
    assert w in s'.busy && a.w in s'.busy && s'.busy[w].id == s'.busy[a.w].id;
  }

  lemma OtherStepsKeepExclusive(c: Config, s: State, a: Action)
    requires Exclusive(s) && Enabled(c, s, a) && (a.Claim? ==> !Held(s, a.id))
    ensures Exclusive(Apply(c, s, a))
  {
    if a.Claim? {
      ClaimStealsIff(c, s, a);
    } else if a.Settle? {
      SettleKeepsApart(c, s, a);
    } else {
      RestKeepsApart(c, s, a);
    }
  }

  lemma UnheldClaims(c: Config, s: State, a: Action)
    requires Exclusive(s) && Enabled(c, s, a)
    ensures a.Claim? && s.table[a.id].leasedUntil.None? ==> !Held(s, a.id)
  {
  }

  // In any run, timely or not, no job ever has two holders exactly when no claim takes a job
  // that is still held.
  lemma {:induction false} AlwaysApartIff(c: Config, s: State, acts: seq<Action>)
    requires Exclusive(s) && Legal(c, s, acts)
    ensures AlwaysApart(c, s, acts) <==> NeverSteals(c, s, acts)
    decreases |acts|
  {
    hide Enabled, Apply, Held;
    assert Apart(s);
    hide Exclusive, Apart;
    if acts == [] {
    } else if acts[0].Claim? && Held(s, acts[0].id) {
      StealIsNotApart(c, s, acts[0]);
    } else {
      OtherStepsKeepExclusive(c, s, acts[0]);
      AlwaysApartIff(c, Apply(c, s, acts[0]), acts[1..]);
    }
  }

  // ---- When a finished status is overwritten ----

  // The status that a settle writes.
  function Settled(c: Config, loaded: Job, outcome: Outcome): Status {
    if loaded.kind !in c.kinds then Failed
    else if outcome.Returned? then Completed
    else if loaded.attempts >= c.maxAttempts then Failed
    else Pending
  }

  // The guard that settling lacks: the worker is about to write another final status over one.
  ghost predicate Overwrites(c: Config, s: State, a: Action)
    requires Enabled(c, s, a)
  {
    a.Settle? &&
    var h := s.busy[a.w];
    && h.id in s.table && !s.table[h.id].status.Pending?
    && Settled(c, h.loaded.value, a.outcome) !in {Pending, s.table[h.id].status}
  }

  // Every finished job of s has the same status in s'.
  ghost predicate KeepsFinished(s: State, s': State) {
    forall id | id in s.table && !s.table[id].status.Pending? ::
      id in s'.table && s'.table[id].status == s.table[id].status
  }

  lemma SettleOverwritesIff(c: Config, s: State, a: Action)
    requires Enabled(c, s, a) && a.Settle? && BoundedHold(s, s.busy[a.w])
    ensures KeepsFinished(s, Apply(c, s, a)) <==> !Overwrites(c, s, a)
  {
    var h, s' := s.busy[a.w], Apply(c, s, a);
    assert forall id | id in s.table && id != h.id :: id in s'.table && s'.table[id] == s.table[id];
    assert h.id in s'.table && s'.table[h.id].status ==
      (if Settled(c, h.loaded.value, a.outcome).Pending? then s.table[h.id].status
       else Settled(c, h.loaded.value, a.outcome));
  }

  lemma StepOverwritesIff(c: Config, s: State, a: Action)
    requires Bounded(c, s) && Enabled(c, s, a)
    ensures KeepsFinished(s, Apply(c, s, a)) <==> !Overwrites(c, s, a)
  {
    hide BoundedRow;
    if a.Settle? {
      assert BoundedHold(s, s.busy[a.w]);
      SettleOverwritesIff(c, s, a);
    }
  }

  ghost function States(c: Config, s: State, acts: seq<Action>): seq<State>
    requires Legal(c, s, acts)
    decreases |acts|
  {
    if acts == [] then [s] else [s] + States(c, Apply(c, s, acts[0]), acts[1..])
  }

  // A status, once final, is the same in every later state of the run.
  ghost predicate FinalIsFinal(states: seq<State>) {
    forall i, j | 0 <= i <= j < |states| :: KeepsFinished(states[i], states[j])
  }

  ghost predicate NeverOverwrites(c: Config, s: State, acts: seq<Action>)
    requires Legal(c, s, acts)
    decreases |acts|
  {
    acts != [] ==> !Overwrites(c, s, acts[0]) && NeverOverwrites(c, Apply(c, s, acts[0]), acts[1..])
  }

  lemma KeepsFinishedChains(s: State, s': State, s'': State)
    requires KeepsFinished(s, s') && KeepsFinished(s', s'')
    ensures KeepsFinished(s, s'')
  {
  }

  lemma FinalFromStart(s: State, rest: seq<State>)
    requires rest != [] && KeepsFinished(s, s)
    ensures FinalIsFinal([s] + rest) <==> FinalIsFinal(rest) && KeepsFinished(s, rest[0])
  {
    hide KeepsFinished;
    var all := [s] + rest;
    if FinalIsFinal(all) {
      assert KeepsFinished(all[0], all[1]);
      forall i, j | 0 <= i <= j < |rest| ensures KeepsFinished(rest[i], rest[j]) {
        assert KeepsFinished(all[i + 1], all[j + 1]);
      }
    }
    if FinalIsFinal(rest) && KeepsFinished(s, rest[0]) {
      forall i, j | 0 <= i <= j < |all| ensures KeepsFinished(all[i], all[j]) {
        if i > 0 {
          assert KeepsFinished(rest[i - 1], rest[j - 1]);
        } else if j > 0 {
          assert KeepsFinished(rest[0], rest[j - 1]);
          KeepsFinishedChains(s, rest[0], rest[j - 1]);
        }
      }
    }
  }

  lemma OneStateIsFinal(s: State)
    ensures FinalIsFinal([s])
  {
  }

  // In any run, stale workers and crashes included, final statuses stay exactly when no settle
  // of the run meets the guard.
  lemma {:induction false} FinalIsFinalIff(c: Config, s: State, acts: seq<Action>)
    requires Bounded(c, s) && Legal(c, s, acts)
    ensures FinalIsFinal(States(c, s, acts)) <==> NeverOverwrites(c, s, acts)
    decreases |acts|
  {
    hide Bounded, Enabled, Apply, Overwrites, FinalIsFinal;
    assert KeepsFinished(s, s);
    hide KeepsFinished;
    if acts == [] {
      OneStateIsFinal(s);
    } else {
      var s' := Apply(c, s, acts[0]);
      StepBounded(c, s, acts[0]);
      FinalIsFinalIff(c, s', acts[1..]);
      StepOverwritesIff(c, s, acts[0]);
      var rest := States(c, s', acts[1..]);
      assert rest != [] && rest[0] == s';
      FinalFromStart(s, rest);
    }
  }

  lemma Prepend(c: Config, s: State, a: Action, s': State, rest: seq<Action>, e: State) returns (acts: seq<Action>)
    requires Enabled(c, s, a) && Apply(c, s, a) == s'
    requires Legal(c, s', rest) && Run(c, s', rest) == e
    ensures Legal(c, s, acts) && Run(c, s, acts) == e && acts == [a] + rest
    ensures TimelyRun(c, s, acts) <==> Timely(s) && TimelyRun(c, s', rest)
  {
    acts := [a] + rest;
    assert acts[1..] == rest;
  }

  // The run behind StaleWorkerOverwrites: of two attempts the first is slow; its worker
  // completes the job late, while the second worker still holds it. First the slow half.
  function FirstTry(attempts: nat, lease: Time): Job {
    NewJob("t", "reflection", "u", "", 0).(leasedUntil := Some(lease), attempts := attempts)
  }

  function Overdue(): State {
    State(61, map["j" := FirstTry(1, 60)], map[1 := Hold("j", 60, Some(FirstTry(1, 60)))], map["j" := 1], {})
  }

  lemma LateCompletion(c: Config) returns (acts: seq<Action>, e: State)
    requires c == Config(2, 60, {"reflection"})
    ensures Legal(c, Overdue(), acts) && Run(c, Overdue(), acts) == e
    ensures "j" in e.table && e.table["j"].status.Completed? && e.table["j"].tenant == "t"
    ensures 2 in e.busy && e.busy[2] == Hold("j", 121, Some(FirstTry(2, 121)))
  {
    var s5 := Overdue().(table := map["j" := FirstTry(2, 121)], claims := map["j" := 2],
                         busy := Overdue().busy[2 := Hold("j", 121, None)]);
    var s6 := s5.(busy := Overdue().busy[2 := Hold("j", 121, Some(FirstTry(2, 121)))]);
    e := Apply(c, s6, Settle(1, Returned("late")));
    acts := Prepend(c, s6, Settle(1, Returned("late")), e, [], e);
    acts := Prepend(c, s5, Reload(2), s6, acts, e);
    acts := Prepend(c, Overdue(), Claim(2, "j", None, 61, {}), s5, acts, e);
  }

  lemma StaleRun(c: Config) returns (acts: seq<Action>, e: State)
    requires c == Config(2, 60, {"reflection"})
    ensures Legal(c, Init(0), acts) && Run(c, Init(0), acts) == e
    ensures "j" in e.table && e.table["j"].status.Completed? && e.table["j"].tenant == "t"
    ensures 2 in e.busy && e.busy[2] == Hold("j", 121, Some(FirstTry(2, 121)))
  {
    var s1 := State(0, map["j" := NewJob("t", "reflection", "u", "", 0)], map[], map["j" := 0], {});
    var s2 := State(0, map["j" := FirstTry(1, 60)], map[1 := Hold("j", 60, None)], map["j" := 1], {});
    acts, e := LateCompletion(c);
    acts := Prepend(c, Overdue().(now := 0), Tick(61), Overdue(), acts, e);
    acts := Prepend(c, s2, Reload(1), Overdue().(now := 0), acts, e);
    acts := Prepend(c, s1, Claim(1, "j", None, 0, {}), s2, acts, e);
    acts := Prepend(c, Init(0), Enqueue("j", "reflection", "u", "", "t"), s1, acts, e);
  }

  // Without the hypothesis the guarantee fails: a completed job becomes failed.
  lemma StaleWorkerOverwrites()
    ensures exists acts, a ::
      var c := Config(2, 60, {"reflection"});
      && Legal(c, Init(0), acts) && "j" in Run(c, Init(0), acts).table
      && Run(c, Init(0), acts).table["j"].status.Completed?
      && Enabled(c, Run(c, Init(0), acts), a) && "j" in Apply(c, Run(c, Init(0), acts), a).table
      && Apply(c, Run(c, Init(0), acts), a).table["j"].status.Failed?
  {
    var c := Config(2, 60, {"reflection"});
    var acts, e := StaleRun(c);
    var a := Settle(2, Raised("boom"));
    assert Enabled(c, e, a) && Apply(c, e, a).table["j"].status.Failed?;
  }

  // A worker iteration of the queue class is the run claim, reload, tick, settle: same table.
  lemma IterationIsARun(c: Config, s: State, w: WorkerId, id: JobId, started: Time, finished: Time,
                        locked: set<JobId>, outcome: Outcome)
    requires w !in s.busy && started <= s.now <= finished
    requires OldestOpen(s.table, locked, s.now, c.maxAttempts, id)
    ensures var acts := [Claim(w, id, None, started, locked), Reload(w), Tick(finished), Settle(w, outcome)];
      var taken := ClaimRow(s.table, id, started + LeaseSeconds(None, c.leaseSeconds));
      && Legal(c, s, acts)
      && Run(c, s, acts).table == SettleRow(taken, id, taken[id], c.kinds, outcome, finished, c.maxAttempts)
      && Run(c, s, acts).busy == s.busy
  {
    var s1 := Apply(c, s, Claim(w, id, None, started, locked));
    var s2 := Apply(c, s1, Reload(w));
    var s3 := Apply(c, s2, Tick(finished));
    var e := Apply(c, s3, Settle(w, outcome));
    assert e.busy == s.busy;
    var acts := Prepend(c, s3, Settle(w, outcome), e, [], e);
    acts := Prepend(c, s2, Tick(finished), s3, acts, e);
    acts := Prepend(c, s1, Reload(w), s2, acts, e);
    acts := Prepend(c, s, Claim(w, id, None, started, locked), s1, acts, e);
    assert acts == [Claim(w, id, None, started, locked), Reload(w), Tick(finished), Settle(w, outcome)];
  }

  // ---- What is left over when the workers go quiet ----

  predicate UsedUp(c: Config, job: Job) {
    job.status.Pending? && job.attempts >= c.maxAttempts && job.attempts > 0
  }

  // Every pending row whose attempts are used up is held or was lost in a crash, and a lost row
  // is out of attempts with no holder.
  ghost predicate Accounted(c: Config, s: State) {
    && (forall id | id in s.table && UsedUp(c, s.table[id]) :: Held(s, id) || id in s.lost)
    && (forall id | id in s.lost :: id in s.table && UsedUp(c, s.table[id]) && !Held(s, id))
  }

  lemma StillHeld(s: State, s': State, id: JobId, w: WorkerId)
    requires w in s'.busy && s'.busy[w].id == id
    ensures Held(s', id)
  {
  }

  // A step leaves the row of a job without holder alone, unless it claims or creates it.
  lemma UnheldRow(c: Config, s: State, a: Action, id: JobId)
    requires Enabled(c, s, a) && id in s.table && !Held(s, id)
    requires !(a.Claim? && a.id == id)
    ensures id in Apply(c, s, a).table && Apply(c, s, a).table[id] == s.table[id] && !Held(Apply(c, s, a), id)
  {
    if w :| w in s.busy && s.busy[w].id == id {
      StillHeld(s, s, id, w);
    }
  }

  lemma StepSpentJobs(c: Config, s: State, a: Action, id: JobId)
    requires Bounded(c, s) && Exclusive(s) && Timely(s) && Accounted(c, s) && Enabled(c, s, a)
    ensures var s' := Apply(c, s, a);
      id in s'.table && UsedUp(c, s'.table[id]) ==> Held(s', id) || id in s'.lost
  {
    hide BoundedRow, BoundedHold;
    var s' := Apply(c, s, a);
    if id in s'.table && UsedUp(c, s'.table[id]) {
      if a.Claim? && a.id == id {
        StillHeld(s, s', id, a.w);
      } else if id !in s.table {
        assert false;
      } else if Held(s, id) {
        var w :| w in s.busy && s.busy[w].id == id;
        if w in s'.busy {
          StillHeld(s, s', id, w);
        }
      } else {
        UnheldRow(c, s, a, id);
      }
    }
  }

  lemma StepLostJobs(c: Config, s: State, a: Action, id: JobId)
    requires Bounded(c, s) && Exclusive(s) && Timely(s) && Accounted(c, s) && Enabled(c, s, a)
    requires id in Apply(c, s, a).lost
    ensures var s' := Apply(c, s, a); id in s'.table && UsedUp(c, s'.table[id]) && !Held(s', id)
  {
    if id in s.lost {
      UnheldRow(c, s, a, id);
    } else {
      assert a.Crash? && BoundedRow(c, s, id) && BoundedHold(s, s.busy[a.w]);
    }
  }

  lemma StepAccounted(c: Config, s: State, a: Action)
    requires Bounded(c, s) && Exclusive(s) && Timely(s) && Accounted(c, s) && Enabled(c, s, a)
    ensures Accounted(c, Apply(c, s, a))
  {
    hide Apply, Enabled, Bounded, Exclusive, Timely, Held, UsedUp;
    var s' := Apply(c, s, a);
    forall id | id in s'.table && UsedUp(c, s'.table[id]) ensures Held(s', id) || id in s'.lost {
      StepSpentJobs(c, s, a, id);
    }
    forall id | id in s'.lost ensures id in s'.table && UsedUp(c, s'.table[id]) && !Held(s', id) {
      StepLostJobs(c, s, a, id);
    }
  }

  lemma StepLeaseHeld(c: Config, s: State, a: Action, id: JobId)
    requires Bounded(c, s) && Exclusive(s) && LeasesHeld(s) && Enabled(c, s, a) && !a.Crash?
    requires id in Apply(c, s, a).table && Apply(c, s, a).table[id].leasedUntil.Some?
    ensures Held(Apply(c, s, a), id)
  {
    hide Bounded;
    var s' := Apply(c, s, a);
    if a.Claim? && a.id == id {
      StillHeld(s, s', id, a.w);
    } else {
      assert Held(s, id);
      var w :| w in s.busy && s.busy[w].id == id;
      StillHeld(s, s', id, w);
    }
  }

  lemma StepLeasesHeld(c: Config, s: State, a: Action)
    requires Bounded(c, s) && Exclusive(s) && LeasesHeld(s) && Enabled(c, s, a) && !a.Crash?
    ensures LeasesHeld(Apply(c, s, a))
  {
    hide Bounded, Exclusive, Enabled, Apply, Held;
    forall id | id in Apply(c, s, a).table && Apply(c, s, a).table[id].leasedUntil.Some?
      ensures Held(Apply(c, s, a), id)
    {
      StepLeaseHeld(c, s, a, id);
    }
  }

  ghost predicate Good(c: Config, s: State) {
    Bounded(c, s) && Exclusive(s) && Accounted(c, s)
  }

  lemma {:induction false} TimelyRunsAreGood(c: Config, s: State, acts: seq<Action>)
    requires Good(c, s) && Legal(c, s, acts) && TimelyRun(c, s, acts)
    ensures Good(c, Run(c, s, acts))
    decreases |acts|
  {
    if acts == [] {
    } else {
      StepBounded(c, s, acts[0]);
      StepExclusive(c, s, acts[0]);
      StepAccounted(c, s, acts[0]);
      TimelyRunsAreGood(c, Apply(c, s, acts[0]), acts[1..]);
    }
  }

  // Nobody is busy and nothing is claimable.
  ghost predicate Quiet(c: Config, s: State) {
    s.busy == map[] && forall id :: !Open(s.table, {}, s.now, c.maxAttempts, id)
  }

  predicate LeasesPassed(s: State) {
    forall id | id in s.table && s.table[id].leasedUntil.Some? :: s.table[id].leasedUntil.value < s.now
  }

  // Crashes included: once the workers are quiet and every lease has passed, the jobs still
  // pending are exactly those whose holder crashed on the last attempt; or all of them, when no
  // attempt is allowed.
  lemma OnlyLostJobsAreLeft(c: Config, now: Time, acts: seq<Action>)
    requires Legal(c, Init(now), acts) && TimelyRun(c, Init(now), acts)
    ensures var e := Run(c, Init(now), acts);
      Quiet(c, e) && LeasesPassed(e) ==>
        forall id | id in e.table :: e.table[id].status.Pending? <==> id in e.lost || c.maxAttempts == 0
  {
    TimelyRunsAreGood(c, Init(now), acts);
    var e := Run(c, Init(now), acts);
    if Quiet(c, e) && LeasesPassed(e) {
      forall id | id in e.table ensures e.table[id].status.Pending? <==> id in e.lost || c.maxAttempts == 0 {
        assert !Open(e.table, {}, e.now, c.maxAttempts, id) && BoundedRow(c, e, id);
      }
    }
  }

  // Pending, out of attempts and held by nobody: in a timely run, where lost jobs end up.
  ghost predicate Stranded(c: Config, s: State, id: JobId) {
    id in s.table && s.table[id].status.Pending? && s.table[id].attempts >= c.maxAttempts && !Held(s, id)
  }

  lemma LostIsStranded(c: Config, s: State, id: JobId)
    requires Accounted(c, s) && id in s.lost
    ensures Stranded(c, s, id)
  {
  }

  // No later step of any worker, timely or not, touches such a job.
  lemma {:induction false} LostForever(c: Config, s: State, acts: seq<Action>, id: JobId)
    requires Stranded(c, s, id) && Legal(c, s, acts)
    ensures var e := Run(c, s, acts);
      Stranded(c, e, id) && e.table[id] == s.table[id] && (id in s.lost ==> id in e.lost)
    decreases |acts|
  {
    hide Held;
    if acts == [] {
    } else {
      UnheldRow(c, s, acts[0], id);
      LostForever(c, Apply(c, s, acts[0]), acts[1..], id);
    }
  }

  // So in every timely run from the start, what crashes have lost stays lost, whatever any
  // worker, timely or not, does from then on.
  lemma LostJobsStayLost(c: Config, now: Time, acts: seq<Action>, more: seq<Action>, id: JobId)
    requires Legal(c, Init(now), acts) && TimelyRun(c, Init(now), acts)
    requires id in Run(c, Init(now), acts).lost && Legal(c, Run(c, Init(now), acts), more)
    ensures var s := Run(c, Init(now), acts);
      var e := Run(c, s, more);
      id in s.table && s.table[id].status.Pending? && id in e.lost && id in e.table && e.table[id] == s.table[id]
  {
    TimelyRunsAreGood(c, Init(now), acts);
    LostIsStranded(c, Run(c, Init(now), acts), id);
    LostForever(c, Run(c, Init(now), acts), more, id);
  }

  // Jobs do get lost: with one attempt allowed, a claim and a crash are enough.
  lemma OneCrashLosesAJob() returns (acts: seq<Action>)
    ensures var c := Config(1, 60, {});
      Legal(c, Init(0), acts) && TimelyRun(c, Init(0), acts) && "j" in Run(c, Init(0), acts).lost
  {
    var c := Config(1, 60, {});
    var s1 := Apply(c, Init(0), Enqueue("j", "reflection", "u", "", "t"));
    var s2 := Apply(c, s1, Claim(1, "j", None, 0, {}));
    var e := Apply(c, s2, Crash(1));
    assert Timely(Init(0)) && Timely(s1) && Timely(s2) && Timely(e);
    acts := Prepend(c, s2, Crash(1), e, [], e);
    acts := Prepend(c, s1, Claim(1, "j", None, 0, {}), s2, acts, e);
    acts := Prepend(c, Init(0), Enqueue("j", "reflection", "u", "", "t"), s1, acts, e);
  }

  ghost predicate CrashFree(acts: seq<Action>) {
    forall i | 0 <= i < |acts| :: !acts[i].Crash?
  }

  // Without crashes the table itself shows it: exactly when every claimed row has no lease.
  lemma {:induction false} CrashFreeApartIff(c: Config, s: State, acts: seq<Action>)
    requires Bounded(c, s) && Exclusive(s) && LeasesHeld(s) && Legal(c, s, acts) && CrashFree(acts)
    ensures AlwaysApart(c, s, acts) <==> ClaimsUnleased(c, s, acts)
    decreases |acts|
  {
    hide Apply, Held, Bounded, Exclusive, LeasesHeld, Apart;
    AlwaysApartIff(c, s, acts);
    if acts == [] {
    } else {
      if acts[0].Claim? {
        ClaimStealsIff(c, s, acts[0]);
      }
      if !acts[0].Claim? || s.table[acts[0].id].leasedUntil.None? {
        UnheldClaims(c, s, acts[0]);
        OtherStepsKeepExclusive(c, s, acts[0]);
        StepBounded(c, s, acts[0]);
        StepLeasesHeld(c, s, acts[0]);
        AlwaysApartIff(c, Apply(c, s, acts[0]), acts[1..]);
        CrashFreeApartIff(c, Apply(c, s, acts[0]), acts[1..]);
      }
    }
  }

  lemma {:induction false} CrashFreeLeases(c: Config, s: State, acts: seq<Action>)
    requires Good(c, s) && LeasesHeld(s)
    requires Legal(c, s, acts) && TimelyRun(c, s, acts) && CrashFree(acts)
    ensures Good(c, Run(c, s, acts)) && LeasesHeld(Run(c, s, acts))
    ensures Run(c, s, acts).lost == s.lost
    decreases |acts|
  {
    if acts == [] {
    } else {
      StepBounded(c, s, acts[0]);
      StepExclusive(c, s, acts[0]);
      StepAccounted(c, s, acts[0]);
      StepLeasesHeld(c, s, acts[0]);
      CrashFreeLeases(c, Apply(c, s, acts[0]), acts[1..]);
    }
  }

  // No deadlock: in a crash-free timely run, quiet workers mean that every job is completed or
  // failed; unless no attempt is allowed, when every job is pending.
  lemma QuietMeansDone(c: Config, now: Time, acts: seq<Action>)
    requires Legal(c, Init(now), acts) && TimelyRun(c, Init(now), acts) && CrashFree(acts)
    ensures var e := Run(c, Init(now), acts);
      Quiet(c, e) ==> forall id | id in e.table :: e.table[id].status.Pending? <==> c.maxAttempts == 0
  {
    CrashFreeLeases(c, Init(now), acts);
    var e := Run(c, Init(now), acts);
    if Quiet(c, e) {
      forall id | id in e.table ensures e.table[id].status.Pending? <==> c.maxAttempts == 0 {
        assert !Open(e.table, {}, e.now, c.maxAttempts, id) && BoundedRow(c, e, id);
      }
    }
  }
}
