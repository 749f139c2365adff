// The job table and the operations on it (mypalace/workers/queue.py), with the
// worker iteration that drives them (mypalace/workers/runner.py).
module JobQueue {
  import opened Prelude

  type JobId = string
  type Time = int // seconds

  datatype Status = Pending | Completed | Failed

  datatype Job = Job(
    tenant: string, kind: string, user: string, payload: string, createdAt: Time,
    status: Status, attempts: nat, leasedUntil: Option<Time>,
    completedAt: Option<Time>, result: Option<string>, error: Option<string>)

  type Table = map<JobId, Job>

  // What a handler did: it returned, or it raised.
  datatype Outcome = Returned(result: string) | Raised(error: string)

  function NewJob(tenant: string, kind: string, user: string, payload: string, now: Time): Job {
    Job(tenant, kind, user, payload, now, Pending, 0, None, None, None, None)
  }

  // A missing or zero lease length means the configured one.
  function LeaseSeconds(requested: Option<int>, configured: int): int {
    if requested.Some? && requested.value != 0 then requested.value else configured
  }

  predicate Claimable(job: Job, now: Time, maxAttempts: nat) {
    && job.status.Pending?
    && (job.leasedUntil.None? || job.leasedUntil.value < now)
    && job.attempts < maxAttempts
  }

  predicate Open(t: Table, locked: set<JobId>, now: Time, maxAttempts: nat, id: JobId) {
    id in t && id !in locked && Claimable(t[id], now, maxAttempts)
  }

  // The rows one claim may take: the oldest claimable ones that no other claim has locked.
  ghost predicate OldestOpen(t: Table, locked: set<JobId>, now: Time, maxAttempts: nat, id: JobId) {
    && Open(t, locked, now, maxAttempts, id)
    && forall o | Open(t, locked, now, maxAttempts, o) :: t[id].createdAt <= t[o].createdAt
  }

  function ClaimRow(t: Table, id: JobId, lease: Time): Table
    requires id in t
  {
    t[id := t[id].(leasedUntil := Some(lease), attempts := t[id].attempts + 1)]
  }

  function ExtendRow(t: Table, id: JobId, lease: Time): Table {
    if id in t && t[id].status.Pending? then t[id := t[id].(leasedUntil := Some(lease))] else t
  }

  function CompleteRow(t: Table, id: JobId, tenant: string, result: string, now: Time): Table {
    if id in t && t[id].tenant == tenant then
      t[id := t[id].(status := Completed, result := Some(result), completedAt := Some(now), leasedUntil := None)]
    else t
  }

  function FailRow(t: Table, id: JobId, tenant: string, error: string, permanent: bool, now: Time): Table {
    if !(id in t && t[id].tenant == tenant) then t
    else if permanent then
      t[id := t[id].(status := Failed, error := Some(error), completedAt := Some(now), leasedUntil := None)]
    else
      t[id := t[id].(error := Some(error), leasedUntil := None)]
  }

  // What a worker writes once it has dealt with the row it loaded.
  function SettleRow(t: Table, id: JobId, loaded: Job, kinds: set<string>, outcome: Outcome,
                     now: Time, maxAttempts: nat): Table {
    if loaded.kind !in kinds then
      FailRow(t, id, loaded.tenant, "unknown job kind: " + loaded.kind, true, now)
    else match outcome
      case Returned(result) => CompleteRow(t, id, loaded.tenant, result, now)
      case Raised(error) => FailRow(t, id, loaded.tenant, error, loaded.attempts >= maxAttempts, now)
  }

  // A nonempty set of candidate rows has an oldest one.
  lemma {:induction false} OldestExists(t: Table, ids: set<JobId>)
    requires ids != {} && ids <= t.Keys
    ensures exists id :: id in ids && forall o | o in ids :: t[id].createdAt <= t[o].createdAt
    decreases ids
  {
    var id :| id in ids;
    if ids != {id} {
      OldestExists(t, ids - {id});
      var rest :| rest in ids - {id} && forall o | o in ids - {id} :: t[rest].createdAt <= t[o].createdAt;
      var best := if t[id].createdAt <= t[rest].createdAt then id else rest;
      assert forall o | o in ids :: t[best].createdAt <= t[o].createdAt;
    }
  }

  class Queue {
    var table: Table
    const maxAttempts: nat
    const leaseSeconds: int
    const kinds: set<string>

    constructor (maxAttempts: nat, leaseSeconds: int, kinds: set<string>)
      ensures table == map[]
      ensures this.maxAttempts == maxAttempts && this.leaseSeconds == leaseSeconds && this.kinds == kinds
    {
      this.maxAttempts, this.leaseSeconds, this.kinds := maxAttempts, leaseSeconds, kinds;
      table := map[];
    }

    method Enqueue(id: JobId, kind: string, user: string, payload: string, tenant: string, now: Time) returns (job: Job)
      requires id !in table // a new random id
      modifies this
      ensures job == Job(tenant, kind, user, payload, now, Pending, 0, None, None, None, None)
      ensures table == old(table)[id := job]
    {
      job := NewJob(tenant, kind, user, payload, now);
      table := table[id := job];
    }

    // `started` is the clock when the lease end is computed, `now` the clock of the query.
    method ClaimNext(requested: Option<int>, started: Time, now: Time, locked: set<JobId>)
      returns (claimed: Option<(JobId, Job)>)
      modifies this
      ensures claimed.None? ==> table == old(table) && forall id :: !Open(table, locked, now, maxAttempts, id)
      ensures claimed.Some? ==>
        var id := claimed.value.0;
        && OldestOpen(old(table), locked, now, maxAttempts, id)
        && (var seconds := if requested == None || requested.value == 0 then leaseSeconds else requested.value;
            table == old(table)[id := old(table)[id].(leasedUntil := Some(started + seconds),
                                                      attempts := old(table)[id].attempts + 1)])
        && claimed.value.1 == table[id]
    {
      var open := set id | id in table && Open(table, locked, now, maxAttempts, id);
      if open == {} {
        assert forall id | Open(table, locked, now, maxAttempts, id) :: id in open;
        return None;
      }
      OldestExists(table, open);
      var id :| id in open && forall o | o in open :: table[id].createdAt <= table[o].createdAt;
      table := ClaimRow(table, id, started + LeaseSeconds(requested, leaseSeconds));
      return Some((id, table[id]));
    }

    method ExtendLease(id: JobId, additional: int, now: Time) returns (extended: bool)
      modifies this
      ensures extended <==> id in old(table) && old(table)[id].status.Pending?
      ensures table == (if extended then old(table)[id := old(table)[id].(leasedUntil := Some(now + additional))]
                        else old(table))
    {
      extended := id in table && table[id].status.Pending?;
      table := ExtendRow(table, id, now + additional);
    }

    method CompleteJob(id: JobId, result: string, tenant: string, now: Time)
      modifies this
      ensures table == CompleteRow(old(table), id, tenant, result, now)
      ensures table.Keys == old(table).Keys && forall o | o in table && o != id :: table[o] == old(table)[o]
      ensures id in table && table[id].tenant != tenant ==> table == old(table)
      ensures id in table && table[id].tenant == tenant ==> table[id] == old(table)[id].(
        status := Completed, result := Some(result), completedAt := Some(now), leasedUntil := None)
    {
      if id in table && table[id].tenant == tenant {
        table := table[id := table[id].(status := Completed, result := Some(result),
                                        completedAt := Some(now), leasedUntil := None)];
      }
    }

    method FailJob(id: JobId, error: string, tenant: string, permanent: bool, now: Time)
      modifies this
      ensures table == FailRow(old(table), id, tenant, error, permanent, now)
      ensures table.Keys == old(table).Keys && forall o | o in table && o != id :: table[o] == old(table)[o]
      ensures id in table && table[id].tenant != tenant ==> table == old(table)
      ensures id in table && table[id].tenant == tenant ==>
        var was := old(table)[id];
        table[id] == if permanent
          then was.(status := Failed, error := Some(error), completedAt := Some(now), leasedUntil := None)
          else was.(error := Some(error), leasedUntil := None)
    {
      if id in table && table[id].tenant == tenant {
        if permanent {
          table := table[id := table[id].(status := Failed, error := Some(error),
                                          completedAt := Some(now), leasedUntil := None)];
        } else {
          table := table[id := table[id].(error := Some(error), leasedUntil := None)];
        }
      }
    }

    // One undisturbed worker iteration: either nothing was open and nothing changed, or the
    // oldest open row was claimed and then settled, so that it ends completed, failed, or
    // pending with no lease and an attempt left.
    method ProcessOne(started: Time, now: Time, finished: Time, locked: set<JobId>, outcome: Outcome)
      returns (attempted: Option<JobId>)
      requires started <= now <= finished
      modifies this
      ensures attempted.None? ==> table == old(table) && forall id :: !Open(table, locked, now, maxAttempts, id)
      ensures attempted.Some? ==>
        var id := attempted.value;
        && OldestOpen(old(table), locked, now, maxAttempts, id)
        && (var taken := ClaimRow(old(table), id, started + LeaseSeconds(None, leaseSeconds));
            table == SettleRow(taken, id, taken[id], kinds, outcome, finished, maxAttempts))
        && table.Keys == old(table).Keys
        && (forall o | o in table && o != id :: table[o] == old(table)[o])
        && table[id].attempts == old(table)[id].attempts + 1 && table[id].leasedUntil.None?
        && (table[id].status.Completed? <==> old(table)[id].kind in kinds && outcome.Returned?)
        && (table[id].status.Failed? <==>
            old(table)[id].kind !in kinds || (outcome.Raised? && table[id].attempts >= maxAttempts))
        && (table[id].status.Pending? ==> Claimable(table[id], finished, maxAttempts))
        && (table[id].status.Completed? ==> table[id].result == Some(outcome.result))
        && (old(table)[id].kind in kinds && outcome.Raised? ==> table[id].error == Some(outcome.error))
        && (old(table)[id].kind !in kinds ==> table[id].error == Some("unknown job kind: " + old(table)[id].kind))
    {
      var claimed := ClaimNext(None, started, now, locked);
      if claimed.None? {
        return None;
      }
      var (id, loaded) := claimed.value;
      if loaded.kind !in kinds {
        FailJob(id, "unknown job kind: " + loaded.kind, loaded.tenant, true, finished);
      } else {
        match outcome
        case Returned(result) =>
          CompleteJob(id, result, loaded.tenant, finished);
        case Raised(error) =>
          FailJob(id, error, loaded.tenant, loaded.attempts >= maxAttempts, finished);
      }
      return Some(id);
    }
  }
}
