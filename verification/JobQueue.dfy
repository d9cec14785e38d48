/**
 The jobs table (crates/db/src/job.rs) and the statements the workers, the reaper and the
 delivery worker run on it (crates/server/src/worker.rs).  The functions give the effect of
 each statement on rows; the class executes them in place.
 */
module JobQueue {
  import opened Basics

  type JobId = nat
  type ClipId = nat

  /** The name a worker writes into `locked_by`. */
  type Worker = nat

  datatype Kind = Media | Delivery   // `Delivery`: the kind starts with "deliver"

  datatype JobState = Queued | Running | Done | Dead

  datatype Job = Job(
    kind: Kind,
    clip: Option<ClipId>,
    runAfter: nat,
    attempts: nat,
    maxAttempts: nat,
    lastError: Option<string>,
    state: JobState,
    lockedBy: Option<Worker>,
    lockedAt: Option<nat>)

  type Rows = map<JobId, Job>

  const DEFAULT_MAX_ATTEMPTS: nat := 5

  // ------------------------------------------------------------ single rows

  /** `Job::create`: column defaults. */
  function NewJob(kind: Kind, clip: Option<ClipId>, runAfter: nat): (r: Job) {
    Job(kind, clip, runAfter, 0, DEFAULT_MAX_ATTEMPTS, None, Queued, None, None)
  }

  function Unlocked(j: Job): (r: Job) {
    j.(lockedBy := None, lockedAt := None)
  }

  predicate IsDue(j: Job, now: nat) {
    j.state == Queued && j.runAfter <= now
  }

  function Claimed(j: Job, worker: Worker, now: nat): (r: Job) {
    j.(state := Running, lockedBy := Some(worker), lockedAt := Some(now))
  }

  function MarkedDone(j: Job, error: Option<string>): (r: Job) {
    Unlocked(j.(state := Done, lastError := error))
  }

  function DeadLettered(j: Job, error: string): (r: Job) {
    Unlocked(j.(state := Dead, lastError := Some(error)))
  }

  function HandedBack(j: Job): (r: Job) {
    Unlocked(j.(state := Queued))
  }

  /** The shared shape of the reaper's and the timeout's UPDATE. */
  function Bumped(j: Job, error: string): (r: Job) {
    var dead := j.attempts + 1 >= j.maxAttempts;
    Unlocked(j.(
             attempts := j.attempts + 1,
             state := if dead then Dead else Queued,
             lastError := if dead then Some(error) else j.lastError))
  }

  predicate IsStale(j: Job, now: nat, timeout: nat) {
    j.state == Running && j.lockedAt.Some? && j.lockedAt.value + timeout < now
  }

  const REAPER_ERROR: string := "reaper: max attempts"

  function Reaped(j: Job, now: nat, timeout: nat): (r: Job) {
    if IsStale(j, now, timeout) then Bumped(j, REAPER_ERROR) else j
  }

  /** The fence of the timeout bump: `locked_by = $2 AND state = 'running'`. */
  predicate HeldBy(j: Job, worker: Worker) {
    j.lockedBy == Some(worker) && j.state == Running
  }

  /** Seconds until the retry after a failure at `attempts` completed tries. */
  function Backoff(attempts: nat): (secs: nat) {
    if attempts == 0 then 30 else if attempts == 1 then 120 else 900
  }

  function Requeued(j: Job, now: nat, secs: nat, reason: string): (r: Job) {
    Unlocked(j.(state := Queued, attempts := j.attempts + 1, lastError := Some(reason), runAfter := now + secs))
  }

  /** `schedule_deliver_retry`: the decision is taken on the claimed copy, the UPDATE hits the row. */
  function RetryScheduled(row: Job, copy: Job, now: nat, reason: string): (r: Job) {
    if copy.attempts + 1 >= copy.maxAttempts then DeadLettered(row, reason)
    else Requeued(row, now, Backoff(copy.attempts), reason)
  }

  // ------------------------------------------------------------ the whole table

  /** The row CLAIM_NEXT_DUE picks: the oldest due one that no concurrent statement has locked. */
  ghost predicate IsNextDue(rows: Rows, now: nat, skipped: set<JobId>, id: JobId) {
    && id in rows && id !in skipped && IsDue(rows[id], now)
    && forall other :: other in rows && other !in skipped && IsDue(rows[other], now) ==>
         rows[id].runAfter <= rows[other].runAfter
  }

  function Reap(rows: Rows, now: nat, timeout: nat): (r: Rows) {
    map id | id in rows :: Reaped(rows[id], now, timeout)
  }

  /** The clips the reaper fails: those of the jobs it has just killed. */
  function ReapedClips(rows: Rows, now: nat, timeout: nat): (r: set<ClipId>) {
    set id | id in rows && IsStale(rows[id], now, timeout) && Reaped(rows[id], now, timeout).state == Dead
      && rows[id].clip.Some?
      :: rows[id].clip.value
  }

  function ClipOf(j: Job): (r: set<ClipId>) {
    if j.clip.Some? then {j.clip.value} else {}
  }

  /** The columns no statement of the queue writes. */
  predicate SameJob(before: Job, after: Job) {
    after.kind == before.kind && after.clip == before.clip && after.maxAttempts == before.maxAttempts
  }

  /** At most row `id` changes, and it stays the same job. */
  predicate OnlyRowChanges(before: Rows, after: Rows, id: JobId) {
    && after.Keys == before.Keys
    && (forall other :: other in before && other != id ==> after[other] == before[other])
    && (id in before ==> SameJob(before[id], after[id]))
  }

  /** Nobody holds the row. */
  predicate IsFree(j: Job) {
    j.lockedBy.None? && j.lockedAt.None?
  }

  /** Running under a lock that is older than the timeout. */
  predicate HasExpired(j: Job, now: nat, timeout: nat) {
    j.state == Running && j.lockedAt.Some? && now > j.lockedAt.value + timeout
  }

  /** One attempt more; the job is free again, or dead with the error when that was the last one. */
  predicate CountedOut(before: Job, after: Job, error: string) {
    && SameJob(before, after) && IsFree(after) && after.runAfter == before.runAfter
    && after.attempts == before.attempts + 1
    && (after.attempts >= after.maxAttempts ==> after.state == Dead && after.lastError == Some(error))
    && (after.attempts < after.maxAttempts ==> after.state == Queued && after.lastError == before.lastError)
  }

  /** No worker will ever claim the row again, unless a statement requeues it. */
  predicate IsFinished(j: Job) {
    j.state == Done || j.state == Dead
  }

  // ------------------------------------------------------------ the statements in place

  class JobTable {
    var rows: Rows
    var failedClips: set<ClipId>

    constructor ()
      ensures rows == map[] && failedClips == {}
    {
      rows, failedClips := map[], {};
    }

    method Create(id: JobId, kind: Kind, clip: Option<ClipId>, runAfter: nat)
      requires id !in rows
      modifies this`rows
      ensures rows.Keys == old(rows).Keys + {id}
      ensures forall other :: other in old(rows) ==> rows[other] == old(rows)[other]
      ensures rows[id].kind == kind && rows[id].clip == clip && IsFree(rows[id])
      ensures rows[id].attempts == 0 && rows[id].maxAttempts == 5 && rows[id].lastError.None?
      ensures forall now :: IsDue(rows[id], now) <==> runAfter <= now
    {
      rows := rows[id := NewJob(kind, clip, runAfter)];
    }

    /** `claim_next_due`: one scan for the oldest due row, which is then locked. */
    method ClaimNextDue(worker: Worker, now: nat, skipped: set<JobId>) returns (r: Option<JobId>)
      modifies this`rows
      ensures r.None? ==> rows == old(rows) && forall id :: id in rows && id !in skipped ==> !IsDue(rows[id], now)
      ensures r.Some? ==> IsNextDue(old(rows), now, skipped, r.value)
      ensures r.Some? ==> rows == old(rows)[r.value := Claimed(old(rows)[r.value], worker, now)]
      ensures r.Some? ==>
                && r.value in old(rows) && r.value !in skipped && old(rows)[r.value].runAfter <= now
                && forall id :: id in old(rows) && id !in skipped && old(rows)[id].state == Queued ==>
                     old(rows)[r.value].runAfter <= old(rows)[id].runAfter
      ensures r.Some? ==>
                && OnlyRowChanges(old(rows), rows, r.value)
                && rows[r.value].state == Running && rows[r.value].lockedBy == Some(worker)
                && rows[r.value].lockedAt == Some(now) && rows[r.value].attempts == old(rows)[r.value].attempts
                && rows[r.value].runAfter == old(rows)[r.value].runAfter
                && rows[r.value].lastError == old(rows)[r.value].lastError
    {
      r := None;
      var left := rows.Keys;
      while left != {}
        invariant left <= rows.Keys
        invariant r.None? ==> forall id :: id in rows && id !in left && id !in skipped ==> !IsDue(rows[id], now)
        invariant r.Some? ==> r.value in rows && r.value !in skipped && IsDue(rows[r.value], now)
        invariant r.Some? ==> forall id :: id in rows && id !in left && id !in skipped && IsDue(rows[id], now) ==>
                                rows[r.value].runAfter <= rows[id].runAfter
        decreases left
      {
        var id :| id in left;
        left := left - {id};
        if id !in skipped && IsDue(rows[id], now) && (r.None? || rows[id].runAfter < rows[r.value].runAfter) {
          r := Some(id);
        }
      }
      if r.Some? {
        rows := rows[r.value := Claimed(rows[r.value], worker, now)];
      }
    }

    /** `mark_done`: by id only. */
    method MarkDone(id: JobId, error: Option<string>)
      modifies this`rows
      ensures OnlyRowChanges(old(rows), rows, id)
      ensures id in rows ==>
                && rows[id].state == Done && IsFree(rows[id]) && rows[id].lastError == error
                && rows[id].attempts == old(rows)[id].attempts && rows[id].runAfter == old(rows)[id].runAfter
      ensures forall now :: id in rows ==> !IsDue(rows[id], now)
    {
      if id in rows {
        rows := rows[id := MarkedDone(rows[id], error)];
      }
    }

    /** `dead_letter`: by id only. */
    method DeadLetter(id: JobId, error: string)
      modifies this`rows
      ensures OnlyRowChanges(old(rows), rows, id)
      ensures id in rows ==>
                && rows[id].state == Dead && IsFree(rows[id]) && rows[id].lastError == Some(error)
                && rows[id].attempts == old(rows)[id].attempts && rows[id].runAfter == old(rows)[id].runAfter
      ensures forall now :: id in rows ==> !IsDue(rows[id], now)
    {
      if id in rows {
        rows := rows[id := DeadLettered(rows[id], error)];
      }
    }

    /** The delivery worker's hand-back of a job that is not a delivery: by id only. */
    method HandBack(id: JobId)
      modifies this`rows
      ensures OnlyRowChanges(old(rows), rows, id)
      ensures id in rows ==>
                && IsFree(rows[id]) && rows[id].attempts == old(rows)[id].attempts
                && rows[id].lastError == old(rows)[id].lastError
      ensures forall now :: id in rows ==> (IsDue(rows[id], now) <==> old(rows)[id].runAfter <= now)
    {
      if id in rows {
        rows := rows[id := HandedBack(rows[id])];
      }
    }

    /** `reap_stale_jobs`: requeue or kill every stale running job, then fail the clips of the killed ones. */
    method ReapStaleJobs(now: nat, timeout: nat)
      modifies this
      ensures rows == Reap(old(rows), now, timeout)
      ensures failedClips == old(failedClips) + ReapedClips(old(rows), now, timeout)
      ensures rows.Keys == old(rows).Keys
      ensures forall id :: id in rows ==>
                if HasExpired(old(rows)[id], now, timeout)
                then CountedOut(old(rows)[id], rows[id], "reaper: max attempts")
                else rows[id] == old(rows)[id]
      ensures forall clip :: clip in failedClips <==>
                || clip in old(failedClips)
                || exists id :: id in old(rows) && HasExpired(old(rows)[id], now, timeout) && rows[id].state == Dead
                                && rows[id].clip == Some(clip)
    {
      ghost var before := rows;
      var left := rows.Keys;
      var returned: set<JobId> := {};
      while left != {}
        invariant left <= rows.Keys && rows.Keys == before.Keys
        invariant forall id :: id in rows ==>
                    rows[id] == if id in left then before[id] else Reaped(before[id], now, timeout)
        invariant forall id :: id in returned <==> id in before && id !in left && IsStale(before[id], now, timeout)
        invariant failedClips == old(failedClips)
        decreases left
      {
        var id :| id in left;
        if IsStale(rows[id], now, timeout) {
          rows := rows[id := Bumped(rows[id], REAPER_ERROR)];
          returned := returned + {id};
        }
        left := left - {id};
      }
      assert rows == Reap(before, now, timeout);
      var dead := set id | id in returned && rows[id].state == Dead && rows[id].clip.Some? :: rows[id].clip.value;
      assert dead == ReapedClips(before, now, timeout);
      failedClips := failedClips + dead;
    }

    /** `bump_job_after_failure`: fenced by the lock; only an effective bump fails the clip. */
    method BumpJobAfterFailure(id: JobId, copy: Job, reason: string) returns (bumped: bool)
      requires copy.lockedBy.Some?
      modifies this
      ensures bumped <==> id in old(rows) && HeldBy(old(rows)[id], copy.lockedBy.value)
      ensures rows == if bumped then old(rows)[id := Bumped(old(rows)[id], reason)] else old(rows)
      ensures bumped <==>
                id in old(rows) && old(rows)[id].state == Running && old(rows)[id].lockedBy == copy.lockedBy
      ensures bumped ==> OnlyRowChanges(old(rows), rows, id) && CountedOut(old(rows)[id], rows[id], reason)
      ensures failedClips == if bumped then old(failedClips) + ClipOf(copy) else old(failedClips)
    {
      bumped := id in rows && rows[id].lockedBy == copy.lockedBy && rows[id].state == Running;
      if !bumped {
        return;
      }
      rows := rows[id := Bumped(rows[id], reason)];
      if copy.clip.Some? {
        failedClips := failedClips + {copy.clip.value};
      }
    }

    /** `schedule_deliver_retry`: by id only. */
    method ScheduleDeliverRetry(id: JobId, copy: Job, now: nat, reason: string)
      modifies this`rows
      ensures rows == if id in old(rows) then old(rows)[id := RetryScheduled(old(rows)[id], copy, now, reason)]
              else old(rows)
      ensures OnlyRowChanges(old(rows), rows, id)
      ensures id in rows ==> IsFree(rows[id]) && rows[id].lastError == Some(reason)
      ensures id in rows && copy.attempts + 1 >= copy.maxAttempts ==>
                && rows[id].state == Dead && rows[id].attempts == old(rows)[id].attempts
                && rows[id].runAfter == old(rows)[id].runAfter
      ensures id in rows && copy.attempts + 1 < copy.maxAttempts ==>
                && rows[id].state == Queued && rows[id].attempts == old(rows)[id].attempts + 1
                && rows[id].runAfter == now + if copy.attempts == 0 then 30 else if copy.attempts == 1 then 120 else 900
    {
      var backoff := if copy.attempts == 0 then 30 else if copy.attempts == 1 then 120 else 900;
      if copy.attempts + 1 >= copy.maxAttempts {
        DeadLetter(id, reason);
        return;
      }
      if id in rows {
        rows := rows[id := Requeued(rows[id], now, backoff, reason)];
      }
    }
  }
}
