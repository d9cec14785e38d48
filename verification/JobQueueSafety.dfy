/**
 The queue under every interleaving of workers, sweeps and failing statements.  Workers are
 sequential and distinctly named.  Every claim gets a lease number; the history records which
 lease each row last carried, to whom it went and how often the row was claimed.
 */
module JobQueueSafety {
  import opened Basics
  import opened JobQueue

  /** What a worker keeps of the job it claimed: the returned copy of the row. */
  datatype Claim = Claim(id: JobId, copy: Job, lease: nat)

  datatype Queue = Queue(
    rows: Rows,
    now: nat,
    failedClips: set<ClipId>,
    holds: map<Worker, Claim>,
    issued: nat,                 // leases 1..issued have been handed out
    holder: map<nat, Worker>,    // lease -> worker
    lease: map<JobId, nat>,      // row -> its latest lease
    claims: map<JobId, nat>,     // row -> how often it was claimed
    bumps: map<JobId, nat>)      // row -> how many reaps, timeout bumps and retries counted an attempt

  /** What a worker writes over the row it claimed, found by id alone. */
  datatype Outcome = AsDone(error: Option<string>) | AsDead(reason: string) | AsHandedBack

  function Written(row: Job, o: Outcome): (r: Job) {
    match o
    case AsDone(error) => MarkedDone(row, error)
    case AsDead(reason) => DeadLettered(row, reason)
    case AsHandedBack => HandedBack(row)
  }

  datatype Step =
    | Tick(secs: nat)
    | Enqueue(id: JobId, kind: Kind, clip: Option<ClipId>, runAfter: nat)
    | ClaimNext(w: Worker, id: JobId, skipped: set<JobId>)
    | Report(w: Worker, outcome: Outcome, failClip: bool)
    | ReportTimeout(w: Worker, reason: string)
    | ReportDeliverFailure(w: Worker, reason: string)
    | ReportLost(w: Worker)          // the reporting statement failed; the worker moves on
    | Sweep(timeout: nat)

  function Counter(m: map<JobId, nat>, id: JobId): (n: nat) {
    if id in m then m[id] else 0
  }

  ghost predicate Enabled(q: Queue, s: Step) {
    match s
    case Tick(_) => true
    case Enqueue(id, _, _, _) => id !in q.rows
    case ClaimNext(w, id, skipped) => w !in q.holds && IsNextDue(q.rows, q.now, skipped, id)
    case ReportDeliverFailure(w, _) => w in q.holds && q.holds[w].copy.kind == Delivery
    case Report(w, outcome, _) => w in q.holds && (outcome.AsHandedBack? ==> q.holds[w].copy.kind == Media)
    case ReportTimeout(w, _) => w in q.holds
    case ReportLost(w) => w in q.holds
    case Sweep(_) => true
  }

  /** An id-only UPDATE: whatever the row has become in the meantime, it takes this value. */
  function Overwrite(q: Queue, w: Worker, row: Job): (r: Queue)
    requires w in q.holds
  {
    q.(rows := q.rows[q.holds[w].id := row], holds := q.holds - {w})
  }

  function ReportBy(q: Queue, w: Worker, outcome: Outcome, failClip: bool): (r: Queue)
    requires w in q.holds
  {
    var c := q.holds[w];
    var clips := if failClip then q.failedClips + ClipOf(c.copy) else q.failedClips;
    if c.id in q.rows then Overwrite(q, w, Written(q.rows[c.id], outcome)).(failedClips := clips)
    else q.(holds := q.holds - {w}, failedClips := clips)
  }

  function ClaimBy(q: Queue, w: Worker, id: JobId): (r: Queue)
    requires id in q.rows
  {
    var row, lease := Claimed(q.rows[id], w, q.now), q.issued + 1;
    q.(rows := q.rows[id := row],
       holds := q.holds[w := Claim(id, row, lease)],
       issued := lease,
       holder := q.holder[lease := w],
       lease := q.lease[id := lease],
       claims := q.claims[id := Counter(q.claims, id) + 1])
  }

  function TimeoutBy(q: Queue, w: Worker, reason: string): (r: Queue)
    requires w in q.holds
  {
    var c := q.holds[w];
    if c.id in q.rows && HeldBy(q.rows[c.id], w) then
      q.(rows := q.rows[c.id := Bumped(q.rows[c.id], reason)],
         failedClips := q.failedClips + ClipOf(c.copy),
         bumps := q.bumps[c.id := Counter(q.bumps, c.id) + 1],
         holds := q.holds - {w})
    else q.(holds := q.holds - {w})
  }

  function RetryBy(q: Queue, w: Worker, reason: string): (r: Queue)
    requires w in q.holds
  {
    var c := q.holds[w];
    if c.id !in q.rows then q.(holds := q.holds - {w})
    else
      var row := RetryScheduled(q.rows[c.id], c.copy, q.now, reason);
      var counted := row.attempts > q.rows[c.id].attempts;
      Overwrite(q, w, row).(bumps := if counted then q.bumps[c.id := Counter(q.bumps, c.id) + 1] else q.bumps)
  }

  function SweepAll(q: Queue, timeout: nat): (r: Queue) {
    q.(rows := Reap(q.rows, q.now, timeout),
       failedClips := q.failedClips + ReapedClips(q.rows, q.now, timeout),
       bumps := map id | id in q.rows.Keys + q.bumps.Keys ::
                  Counter(q.bumps, id) + if id in q.rows && IsStale(q.rows[id], q.now, timeout) then 1 else 0)
  }

  ghost function Next(q: Queue, s: Step): (r: Queue)
    requires Enabled(q, s)
  {
    match s
    case Tick(secs) => q.(now := q.now + secs)
    case Enqueue(id, kind, clip, runAfter) => q.(rows := q.rows[id := NewJob(kind, clip, runAfter)])
    case ClaimNext(w, id, _) => ClaimBy(q, w, id)
    case Report(w, outcome, failClip) => ReportBy(q, w, outcome, failClip)
    case ReportTimeout(w, reason) => TimeoutBy(q, w, reason)
    case ReportDeliverFailure(w, reason) => RetryBy(q, w, reason)
    case ReportLost(w) => q.(holds := q.holds - {w})
    case Sweep(timeout) => SweepAll(q, timeout)
  }

  ghost predicate Initial(q: Queue) {
    && q.rows == map[] && q.holds == map[] && q.issued == 0 && q.holder == map[] && q.lease == map[]
    && q.claims == map[] && q.bumps == map[]
  }

  ghost predicate IsRun(q: Queue, steps: seq<Step>)
    decreases |steps|
  {
    steps == [] || (Enabled(q, steps[0]) && IsRun(Next(q, steps[0]), steps[1..]))
  }

  ghost function After(q: Queue, steps: seq<Step>): (r: Queue)
    requires IsRun(q, steps)
    decreases |steps|
  {
    if steps == [] then q else After(Next(q, steps[0]), steps[1..])
  }

  // ------------------------------------------------------------ leases fence the timeout bump

  /** The worker's claim is still the one its row is running under. */
  ghost predicate StillHeld(q: Queue, w: Worker) {
    && w in q.holds && q.holds[w].id in q.rows
    && q.rows[q.holds[w].id].state == Running
    && Counter(q.lease, q.holds[w].id) == q.holds[w].lease
  }

  /** `running` iff `locked_by` is set iff `locked_at` is set; and the lock names the holder of the latest lease. */
  ghost predicate RowOk(q: Queue, id: JobId)
    requires id in q.rows
  {
    var row := q.rows[id];
    && (row.state == Running <==> row.lockedBy.Some?)
    && (row.state == Running <==> row.lockedAt.Some?)
    && (row.state == Running ==>
         Counter(q.lease, id) in q.holder && q.holder[Counter(q.lease, id)] == row.lockedBy.value)
    && (row.kind == Media ==> row.attempts + (if row.state == Running then 1 else 0) <= Counter(q.claims, id))
    && row.attempts == Counter(q.bumps, id)
  }

  /**
   A claim is the worker's latest lease, its row's latest or an older one, and while it is still
   held the row is the claimed copy.
   */
  ghost predicate ClaimOk(q: Queue, w: Worker)
    requires w in q.holds
  {
    var c := q.holds[w];
    && c.id in q.rows && c.copy.kind == q.rows[c.id].kind
    && 0 < c.lease <= Counter(q.lease, c.id) && c.lease in q.holder && q.holder[c.lease] == w
    && (forall l :: l in q.holder && q.holder[l] == w ==> l <= c.lease)
    && (StillHeld(q, w) ==> q.rows[c.id] == c.copy)
  }

  ghost predicate Inv(q: Queue) {
    && (forall l :: l in q.holder ==> 0 < l <= q.issued)
    && (forall id :: id in q.lease || id in q.claims || id in q.bumps ==> id in q.rows)
    && (forall id :: id in q.lease ==> q.lease[id] <= q.issued)
    && (forall id :: id in q.rows ==> RowOk(q, id))
    && (forall w :: w in q.holds ==> ClaimOk(q, w))
  }

  /** The lock on a row names a worker exactly when that worker still holds the row's latest lease. */
  lemma LockNamesTheHolder(q: Queue, w: Worker)
    requires Inv(q) && w in q.holds
    ensures q.holds[w].id in q.rows
    ensures HeldBy(q.rows[q.holds[w].id], w) <==> StillHeld(q, w)
  {
    var c := q.holds[w];
    assert ClaimOk(q, w) && RowOk(q, c.id);
  }

  // ------------------------------------------------------------ every step keeps the invariant

  ghost predicate SameHistory(q: Queue, q': Queue) {
    q'.issued == q.issued && q'.holder == q.holder && q'.lease == q.lease && q'.claims == q.claims
  }

  ghost predicate HoldsShrink(q: Queue, q': Queue) {
    forall w :: w in q'.holds ==> w in q.holds && q'.holds[w] == q.holds[w]
  }

  /** Rows that are still running are untouched; every other row stays well-formed and of its kind. */
  ghost predicate RowsParked(q: Queue, q': Queue) {
    && q'.rows.Keys == q.rows.Keys
    && (forall id :: id in q.rows ==> q'.rows[id].kind == q.rows[id].kind)
    && (forall id :: id in q.rows && q'.rows[id].state == Running ==> q'.rows[id] == q.rows[id])
  }

  /** A step that only takes rows out of `running` keeps the invariant. */
  lemma ParkKeepsInv(q: Queue, q': Queue)
    requires Inv(q) && SameHistory(q, q') && HoldsShrink(q, q') && RowsParked(q, q')
    requires forall id :: id in q'.bumps ==> id in q.rows
    requires forall id :: id in q.rows ==> RowOk(q', id)
    ensures Inv(q')
  {
    forall w | w in q'.holds ensures ClaimOk(q', w) {
      assert ClaimOk(q, w);
      assert StillHeld(q', w) ==> StillHeld(q, w);
    }
  }

  /** The value an id-only report writes: not running, unlocked, and with as many attempts as bumps. */
  ghost predicate Parked(row: Job, row': Job) {
    row'.kind == row.kind && row'.state != Running && row'.lockedBy.None? && row'.lockedAt.None?
  }

  lemma OverwriteKeepsInv(q: Queue, q': Queue, w: Worker, row: Job)
    requires Inv(q) && w in q.holds && q.holds[w].id in q.rows
    requires SameHistory(q, q') && q'.holds == q.holds - {w}
    requires q'.rows == q.rows[q.holds[w].id := row] && Parked(q.rows[q.holds[w].id], row)
    requires forall id :: id != q.holds[w].id ==> Counter(q'.bumps, id) == Counter(q.bumps, id)
    requires forall id :: id in q'.bumps ==> id in q.rows
    requires row.attempts == Counter(q'.bumps, q.holds[w].id)
    requires row.kind == Media ==> row.attempts <= Counter(q.claims, q.holds[w].id)
    ensures Inv(q')
  {
    forall id | id in q.rows ensures RowOk(q', id) {
      assert RowOk(q, id);
    }
    ParkKeepsInv(q, q');
  }

  lemma ReportKeepsInv(q: Queue, w: Worker, outcome: Outcome, failClip: bool)
    requires Inv(q) && w in q.holds
    ensures Inv(ReportBy(q, w, outcome, failClip))
  {
    var c := q.holds[w];
    assert ClaimOk(q, w) && RowOk(q, c.id);
    OverwriteKeepsInv(q, ReportBy(q, w, outcome, failClip), w, Written(q.rows[c.id], outcome));
  }

  lemma RetryKeepsInv(q: Queue, w: Worker, reason: string)
    requires Inv(q) && w in q.holds && q.holds[w].copy.kind == Delivery
    ensures Inv(RetryBy(q, w, reason))
  {
    var c := q.holds[w];
    assert ClaimOk(q, w) && RowOk(q, c.id);
    OverwriteKeepsInv(q, RetryBy(q, w, reason), w, RetryScheduled(q.rows[c.id], c.copy, q.now, reason));
  }

  lemma LetGoKeepsInv(q: Queue, w: Worker)
    requires Inv(q)
    ensures Inv(q.(holds := q.holds - {w}))
  {
    var q' := q.(holds := q.holds - {w});
    forall id | id in q.rows ensures RowOk(q', id) {
      assert RowOk(q, id);
    }
    ParkKeepsInv(q, q');
  }

  lemma TimeoutKeepsInv(q: Queue, w: Worker, reason: string)
    requires Inv(q) && w in q.holds
    ensures Inv(TimeoutBy(q, w, reason))
  {
    var c := q.holds[w];
    assert ClaimOk(q, w) && RowOk(q, c.id);
    if HeldBy(q.rows[c.id], w) {
      OverwriteKeepsInv(q, TimeoutBy(q, w, reason), w, Bumped(q.rows[c.id], reason));
    } else {
      LetGoKeepsInv(q, w);
    }
  }

  lemma SweepRowOk(q: Queue, timeout: nat, id: JobId)
    requires id in q.rows && RowOk(q, id)
    ensures RowOk(SweepAll(q, timeout), id)
  {
    var counted := if IsStale(q.rows[id], q.now, timeout) then 1 else 0;
    assert Counter(SweepAll(q, timeout).bumps, id) == Counter(q.bumps, id) + counted;
  }

  lemma SweepKeepsInv(q: Queue, timeout: nat)
    requires Inv(q)
    ensures Inv(SweepAll(q, timeout))
  {
    var q' := SweepAll(q, timeout);
    forall id | id in q.rows ensures RowOk(q', id) {
      SweepRowOk(q, timeout, id);
    }
    ParkKeepsInv(q, q');
  }

  lemma ClaimRowOk(q: Queue, w: Worker, id: JobId, i: JobId)
    requires id in q.rows && i in q.rows && RowOk(q, i) && (i == id ==> q.rows[id].state == Queued)
    requires forall l :: l in q.holder ==> 0 < l <= q.issued
    ensures RowOk(ClaimBy(q, w, id), i)
  {
  }

  /** Another worker's claim stays its own: a new lease on its row ends it. */
  lemma ClaimKeepsOtherClaim(q: Queue, w: Worker, id: JobId, v: Worker)
    requires id in q.rows && v in q.holds && v != w && ClaimOk(q, v) && Counter(q.lease, id) <= q.issued
    requires forall l :: l in q.holder ==> 0 < l <= q.issued
    ensures ClaimOk(ClaimBy(q, w, id), v)
  {
    assert StillHeld(ClaimBy(q, w, id), v) ==> StillHeld(q, v);
  }

  lemma NewClaimIsOk(q: Queue, w: Worker, id: JobId)
    requires id in q.rows
    requires forall l :: l in q.holder ==> 0 < l <= q.issued
    ensures ClaimOk(ClaimBy(q, w, id), w)
  {
  }

  lemma ClaimKeepsInv(q: Queue, w: Worker, id: JobId, skipped: set<JobId>)
    requires Inv(q) && Enabled(q, ClaimNext(w, id, skipped))
    ensures Inv(ClaimBy(q, w, id))
  {
    var q' := ClaimBy(q, w, id);
    forall i | i in q'.rows ensures RowOk(q', i) {
      ClaimRowOk(q, w, id, i);
    }
    forall v | v in q'.holds ensures ClaimOk(q', v) {
      if v == w {
        NewClaimIsOk(q, w, id);
      } else {
        ClaimKeepsOtherClaim(q, w, id, v);
      }
    }
  }

  lemma EnqueueKeepsInv(q: Queue, id: JobId, kind: Kind, clip: Option<ClipId>, runAfter: nat)
    requires Inv(q) && id !in q.rows
    ensures Inv(q.(rows := q.rows[id := NewJob(kind, clip, runAfter)]))
  {
    var q' := q.(rows := q.rows[id := NewJob(kind, clip, runAfter)]);
    forall i | i in q'.rows ensures RowOk(q', i) {
      if i != id {
        assert RowOk(q, i);
      }
    }
    forall w | w in q'.holds ensures ClaimOk(q', w) {
      assert ClaimOk(q, w);
      assert StillHeld(q', w) ==> StillHeld(q, w);
    }
  }

  lemma TickKeepsInv(q: Queue, secs: nat)
    requires Inv(q)
    ensures Inv(q.(now := q.now + secs))
  {
    var q' := q.(now := q.now + secs);
    forall id | id in q.rows ensures RowOk(q', id) {
      assert RowOk(q, id);
    }
    ParkKeepsInv(q, q');
  }

  /** Every step of every interleaving keeps the invariant. */
  lemma StepKeepsInv(q: Queue, s: Step)
    requires Inv(q) && Enabled(q, s)
    ensures Inv(Next(q, s))
  {
    match s
    case Tick(secs) => TickKeepsInv(q, secs);
    case Enqueue(id, kind, clip, runAfter) => EnqueueKeepsInv(q, id, kind, clip, runAfter);
    case ClaimNext(w, id, skipped) => ClaimKeepsInv(q, w, id, skipped);
    case Report(w, outcome, failClip) => ReportKeepsInv(q, w, outcome, failClip);
    case ReportTimeout(w, reason) => TimeoutKeepsInv(q, w, reason);
    case ReportDeliverFailure(w, reason) => RetryKeepsInv(q, w, reason);
    case ReportLost(w) => LetGoKeepsInv(q, w);
    case Sweep(timeout) => SweepKeepsInv(q, timeout);
  }

  lemma {:induction false} RunKeepsInv(q: Queue, steps: seq<Step>)
    requires Inv(q) && IsRun(q, steps)
    ensures Inv(After(q, steps))
    decreases |steps|
  {
    if steps == [] {
    } else {
      StepKeepsInv(q, steps[0]);
      RunKeepsInv(Next(q, steps[0]), steps[1..]);
    }
  }

  // ------------------------------------------------------------ what holds in every interleaving

  /**
   Fencing: at any point of any run, a timed-out worker's bump takes effect exactly when the
   row is still running under the very claim that worker made; then it counts one attempt,
   releases the row and fails the clip, and otherwise it changes neither row nor clip.
   */
  lemma TimeoutIsFenced(start: Queue, steps: seq<Step>, w: Worker, reason: string)
    requires Initial(start) && IsRun(start, steps) && w in After(start, steps).holds
    ensures var q := After(start, steps);
            var c, q' := q.holds[w], TimeoutBy(q, w, reason);
            && c.id in q.rows
            && (StillHeld(q, w) ==>
                  && q.rows[c.id] == c.copy
                  && q'.rows == q.rows[c.id := Bumped(c.copy, reason)]
                  && q'.failedClips == q.failedClips + ClipOf(c.copy))
            && (!StillHeld(q, w) ==> q'.rows == q.rows && q'.failedClips == q.failedClips)
  {
    RunKeepsInv(start, steps);
    var q := After(start, steps);
    LockNamesTheHolder(q, w);
    assert ClaimOk(q, w);
  }

  /** Every claim of a media job adds at most one to its attempts. */
  lemma MediaAttemptsWithinClaims(start: Queue, steps: seq<Step>, id: JobId)
    requires Initial(start) && IsRun(start, steps) && id in After(start, steps).rows
    ensures var q := After(start, steps);
            q.rows[id].kind == Media ==>
                q.rows[id].attempts + (if q.rows[id].state == Running then 1 else 0) <= Counter(q.claims, id)
  {
    RunKeepsInv(start, steps);
    assert RowOk(After(start, steps), id);
  }

  /** In every reachable state a row is running iff it is locked, by a worker and since a time. */
  lemma RunningIffLocked(start: Queue, steps: seq<Step>, id: JobId)
    requires Initial(start) && IsRun(start, steps) && id in After(start, steps).rows
    ensures var row := After(start, steps).rows[id];
            (row.state == Running <==> row.lockedBy.Some?) && (row.state == Running <==> row.lockedAt.Some?)
  {
    RunKeepsInv(start, steps);
    assert RowOk(After(start, steps), id);
  }

  /** What a step does to the attempts of one row, given that a failed delivery's row is a delivery. */
  ghost predicate CountsAtMostOne(row: Job, row': Job) {
    && row.attempts <= row'.attempts <= row.attempts + 1
    && (row.kind == Media && row'.attempts > row.attempts ==> row.state == Running && row'.state != Running)
  }

  lemma TimeoutCountsAtMostOne(q: Queue, w: Worker, reason: string, id: JobId)
    requires w in q.holds && id in q.rows
    ensures id in TimeoutBy(q, w, reason).rows && CountsAtMostOne(q.rows[id], TimeoutBy(q, w, reason).rows[id])
  {
  }

  lemma RetryCountsAtMostOne(q: Queue, w: Worker, reason: string, id: JobId)
    requires w in q.holds && id in q.rows && (q.holds[w].id == id ==> q.rows[id].kind == Delivery)
    ensures id in RetryBy(q, w, reason).rows && CountsAtMostOne(q.rows[id], RetryBy(q, w, reason).rows[id])
  {
  }

  lemma ReportCountsAtMostOne(q: Queue, w: Worker, outcome: Outcome, failClip: bool, id: JobId)
    requires w in q.holds && id in q.rows
    ensures id in ReportBy(q, w, outcome, failClip).rows
    ensures CountsAtMostOne(q.rows[id], ReportBy(q, w, outcome, failClip).rows[id])
  {
  }

  lemma SweepCountsAtMostOne(q: Queue, timeout: nat, id: JobId)
    requires id in q.rows
    ensures id in SweepAll(q, timeout).rows && CountsAtMostOne(q.rows[id], SweepAll(q, timeout).rows[id])
  {
  }

  /** No step lowers `attempts`, and a step that raises them raises them by one and, on a media job, ends its claim. */
  lemma AttemptsNeverDecrease(q: Queue, s: Step, id: JobId)
    requires Inv(q) && Enabled(q, s) && id in q.rows
    ensures id in Next(q, s).rows
    ensures q.rows[id].attempts <= Next(q, s).rows[id].attempts <= q.rows[id].attempts + 1
    ensures q.rows[id].kind == Media && Next(q, s).rows[id].attempts > q.rows[id].attempts ==>
              q.rows[id].state == Running && Next(q, s).rows[id].state != Running
  {
    match s
    case ReportDeliverFailure(w, reason) => assert ClaimOk(q, w); RetryCountsAtMostOne(q, w, reason, id);
    case ReportTimeout(w, reason) => TimeoutCountsAtMostOne(q, w, reason, id);
    case Report(w, outcome, failClip) => ReportCountsAtMostOne(q, w, outcome, failClip, id);
    case Sweep(timeout) => SweepCountsAtMostOne(q, timeout, id);
    case Tick(_) =>
    case Enqueue(_, _, _, _) =>
    case ClaimNext(_, _, _) =>
    case ReportLost(_) =>
  }

  /** A sweep leaves alone what is not running, or locked no longer ago than the timeout. */
  lemma SweepSparesYoungLocks(q: Queue, timeout: nat, id: JobId)
    requires id in q.rows
    requires q.rows[id].state == Running && q.rows[id].lockedAt.Some? ==> q.now <= q.rows[id].lockedAt.value + timeout
    ensures id in SweepAll(q, timeout).rows && SweepAll(q, timeout).rows[id] == q.rows[id]
    ensures Counter(SweepAll(q, timeout).bumps, id) == Counter(q.bumps, id)
  {
  }

  /** A running job with an older lock loses it and counts one attempt. */
  lemma SweepReapsOldLocks(q: Queue, timeout: nat, id: JobId)
    requires id in q.rows && q.rows[id].state == Running && q.rows[id].lockedAt.Some?
    requires q.now > q.rows[id].lockedAt.value + timeout
    ensures id in SweepAll(q, timeout).rows
    ensures CountedOut(q.rows[id], SweepAll(q, timeout).rows[id], "reaper: max attempts")
    ensures Counter(SweepAll(q, timeout).bumps, id) == Counter(q.bumps, id) + 1
  {
  }

  // ------------------------------------------------------------ which clips fail, and when a claim ends

  /** A sweep kills a job of this clip: its lock has expired on the last attempt. */
  ghost predicate KillsJobOf(q: Queue, timeout: nat, id: JobId, clip: ClipId) {
    && id in q.rows && HasExpired(q.rows[id], q.now, timeout)
    && q.rows[id].attempts + 1 >= q.rows[id].maxAttempts && q.rows[id].clip == Some(clip)
  }

  /**
   A clip fails exactly by a report that says so, by a timeout whose worker still holds the row's
   lock, or by a sweep that kills a job of it; and it never recovers in the queue.
   */
  lemma ClipFailsExactlyWhen(q: Queue, s: Step, clip: ClipId)
    requires Enabled(q, s)
    ensures clip in Next(q, s).failedClips <==>
              || clip in q.failedClips
              || (s.Report? && s.failClip && q.holds[s.w].copy.clip == Some(clip))
              || (s.ReportTimeout? && HoldsLock(q, s.w) && q.holds[s.w].copy.clip == Some(clip))
              || (s.Sweep? && exists id :: KillsJobOf(q, s.timeout, id, clip))
  {
    if s.Sweep? {
      SweepFailsClip(q, s.timeout, clip);
    }
  }

  /** The row that `w` claimed is running under a lock in the name of `w`. */
  ghost predicate HoldsLock(q: Queue, w: Worker)
    requires w in q.holds
  {
    var id := q.holds[w].id;
    id in q.rows && q.rows[id].state == Running && q.rows[id].lockedBy == Some(w)
  }

  lemma SweepFailsClip(q: Queue, timeout: nat, clip: ClipId)
    ensures clip in SweepAll(q, timeout).failedClips <==>
              clip in q.failedClips || exists id :: KillsJobOf(q, timeout, id, clip)
  {
    if clip in ReapedClips(q.rows, q.now, timeout) {
      var id :| id in q.rows && IsStale(q.rows[id], q.now, timeout)
                && Reaped(q.rows[id], q.now, timeout).state == Dead && q.rows[id].clip == Some(clip);
      assert KillsJobOf(q, timeout, id, clip);
    }
  }

  /** Whatever a worker reports, and even if the report is lost, it is free to claim again; no other claim ends. */
  lemma ReportEndsClaim(q: Queue, s: Step)
    requires Enabled(q, s)
    ensures s.Report? || s.ReportTimeout? || s.ReportDeliverFailure? || s.ReportLost? ==>
              Next(q, s).holds == q.holds - {s.w}
    ensures s.Tick? || s.Enqueue? || s.Sweep? ==> Next(q, s).holds == q.holds
    ensures s.ClaimNext? ==>
              Next(q, s).holds.Keys == q.holds.Keys + {s.w} && Next(q, s).holds - {s.w} == q.holds - {s.w}
  {
  }

  // ------------------------------------------------------------ when requeueing reports still hold their claim

  /** The two id-only statements that put a job back into the queue run only while their claim is held. */
  ghost predicate RequeuesOnlyWhileHeld(q: Queue, s: Step) {
    (s.Report? && s.outcome.AsHandedBack?) || s.ReportDeliverFailure? ==> StillHeld(q, s.w)
  }

  ghost predicate IsOrderlyRun(q: Queue, steps: seq<Step>)
    decreases |steps|
  {
    steps == []
      || (Enabled(q, steps[0]) && RequeuesOnlyWhileHeld(q, steps[0]) && IsOrderlyRun(Next(q, steps[0]), steps[1..]))
  }

  /** The attempts budget of a row that was claimed `claims` times. */
  ghost predicate Budget(row: Job, claims: nat) {
    && 0 < row.maxAttempts && row.attempts <= row.maxAttempts
    && (row.state == Queued || row.state == Running ==> row.attempts < row.maxAttempts)
    && (row.kind == Delivery ==>
          && claims <= row.maxAttempts
          && (row.state == Queued ==> claims == row.attempts)
          && (row.state == Running ==> claims == row.attempts + 1))
  }

  ghost predicate InBudget(q: Queue, id: JobId) {
    id in q.rows && Budget(q.rows[id], Counter(q.claims, id))
  }

  ghost predicate Budgets(q: Queue) {
    forall id :: id in q.rows ==> InBudget(q, id)
  }

  lemma TimeoutKeepsBudget(q: Queue, w: Worker, reason: string, id: JobId)
    requires w in q.holds && InBudget(q, id)
    ensures InBudget(TimeoutBy(q, w, reason), id)
  {
    assert Budget(q.rows[id], Counter(q.claims, id)) && q.rows[id].state == Running ==>
             Budget(Bumped(q.rows[id], reason), Counter(q.claims, id));
  }

  lemma RetryKeepsBudget(q: Queue, w: Worker, reason: string, id: JobId)
    requires w in q.holds && InBudget(q, id)
    requires q.holds[w].id == id ==> q.rows[id] == q.holds[w].copy && q.rows[id].state == Running
    ensures InBudget(RetryBy(q, w, reason), id)
  {
    assert q.rows[id].state == Running ==>
             Budget(RetryScheduled(q.rows[id], q.rows[id], q.now, reason), Counter(q.claims, id));
  }

  lemma ReportKeepsBudget(q: Queue, w: Worker, outcome: Outcome, failClip: bool, id: JobId)
    requires w in q.holds && InBudget(q, id)
    requires outcome.AsHandedBack? && q.holds[w].id == id ==> q.rows[id].kind == Media && q.rows[id].state == Running
    ensures InBudget(ReportBy(q, w, outcome, failClip), id)
  {
    assert q.holds[w].id == id ==> Budget(Written(q.rows[id], outcome), Counter(q.claims, id));
  }

  lemma ClaimKeepsBudget(q: Queue, w: Worker, job: JobId, id: JobId)
    requires job in q.rows && q.rows[job].state == Queued && InBudget(q, id)
    ensures InBudget(ClaimBy(q, w, job), id)
  {
  }

  lemma SweepKeepsBudget(q: Queue, timeout: nat, id: JobId)
    requires InBudget(q, id)
    ensures InBudget(SweepAll(q, timeout), id)
  {
    assert Budget(Reaped(q.rows[id], q.now, timeout), Counter(q.claims, id));
  }

  /** A row that exists stays within its budget. */
  lemma StepKeepsBudget(q: Queue, s: Step, id: JobId)
    requires Enabled(q, s) && RequeuesOnlyWhileHeld(q, s) && InBudget(q, id)
    requires (s.Report? || s.ReportDeliverFailure?) ==> ClaimOk(q, s.w)
    ensures InBudget(Next(q, s), id)
  {
    match s
    case ClaimNext(w, job, _) => ClaimKeepsBudget(q, w, job, id);
    case Report(w, outcome, failClip) => ReportKeepsBudget(q, w, outcome, failClip, id);
    case ReportTimeout(w, reason) => TimeoutKeepsBudget(q, w, reason, id);
    case ReportDeliverFailure(w, reason) => RetryKeepsBudget(q, w, reason, id);
    case Sweep(timeout) => SweepKeepsBudget(q, timeout, id);
    case Tick(_) =>
    case Enqueue(_, _, _, _) =>
    case ReportLost(_) =>
  }

  lemma ReportAddsNoRow(q: Queue, w: Worker, outcome: Outcome, failClip: bool)
    requires w in q.holds
    ensures ReportBy(q, w, outcome, failClip).rows.Keys == q.rows.Keys
  {
  }

  lemma RetryAddsNoRow(q: Queue, w: Worker, reason: string)
    requires w in q.holds
    ensures RetryBy(q, w, reason).rows.Keys == q.rows.Keys
  {
  }

  lemma OnlyEnqueueAddsRows(q: Queue, s: Step)
    requires Enabled(q, s) && !s.Enqueue?
    ensures Next(q, s).rows.Keys == q.rows.Keys
  {
    match s
    case Report(w, outcome, failClip) => ReportAddsNoRow(q, w, outcome, failClip);
    case ReportDeliverFailure(w, reason) => RetryAddsNoRow(q, w, reason);
    case _ =>
  }

  /** An enqueued row, and no other row is ever added, starts within its budget. */
  lemma NewRowIsInBudget(q: Queue, s: Step, id: JobId)
    requires Enabled(q, s) && id in Next(q, s).rows && id !in q.rows && id !in q.claims
    ensures InBudget(Next(q, s), id)
  {
    if !s.Enqueue? {
      OnlyEnqueueAddsRows(q, s);
    }
  }

  lemma StepKeepsBudgets(q: Queue, s: Step)
    requires Inv(q) && Budgets(q) && Enabled(q, s) && RequeuesOnlyWhileHeld(q, s)
    ensures Budgets(Next(q, s))
  {
    forall id | id in Next(q, s).rows ensures InBudget(Next(q, s), id) {
      if id in q.rows {
        assert InBudget(q, id);
        assert (s.Report? || s.ReportDeliverFailure?) ==> ClaimOk(q, s.w);
        StepKeepsBudget(q, s, id);
      } else {
        NewRowIsInBudget(q, s, id);
      }
    }
  }

  lemma {:induction false} OrderlyRunKeepsBudgets(q: Queue, steps: seq<Step>)
    requires Inv(q) && Budgets(q) && IsOrderlyRun(q, steps)
    ensures IsRun(q, steps) && Inv(After(q, steps)) && Budgets(After(q, steps))
    decreases |steps|
  {
    if steps == [] {
    } else {
      StepKeepsInv(q, steps[0]);
      StepKeepsBudgets(q, steps[0]);
      OrderlyRunKeepsBudgets(Next(q, steps[0]), steps[1..]);
    }
  }

  /**
   In every such run a queued or running job has attempts left; reaps, timeout bumps and
   retries together number at most `max_attempts`; and a delivery job is claimed at most
   `max_attempts` times.
   */
  lemma AttemptsAreBounded(start: Queue, steps: seq<Step>, id: JobId)
    requires Initial(start) && IsOrderlyRun(start, steps)
    ensures IsRun(start, steps)
    ensures var q := After(start, steps);
            id in q.rows ==>
              var row := q.rows[id];
              && (row.state == Queued || row.state == Running ==> row.attempts < row.maxAttempts)
              && Counter(q.bumps, id) == row.attempts <= row.maxAttempts
              && (row.kind == Delivery ==> Counter(q.claims, id) <= row.maxAttempts)
  {
    OrderlyRunKeepsBudgets(start, steps);
    var q := After(start, steps);
    if id in q.rows {
      assert RowOk(q, id) && InBudget(q, id);
    }
  }

  /** The step is one of the two id-only statements that requeue, and its claim names row `id`. */
  ghost predicate Requeues(q: Queue, s: Step, id: JobId) {
    || (s.Report? && s.w in q.holds && s.outcome.AsHandedBack? && q.holds[s.w].id == id)
    || (s.ReportDeliverFailure? && s.w in q.holds && q.holds[s.w].id == id
        && q.holds[s.w].copy.attempts + 1 < q.holds[s.w].copy.maxAttempts)
  }

  /**
   A done or dead job comes back exactly by a hand-back, or by a retry whose copy has attempts
   left, of a worker whose claim names it; and that claim is then no longer the row's.
   */
  lemma FinishedJobRevivedExactlyWhen(q: Queue, s: Step, id: JobId)
    requires Inv(q) && Enabled(q, s) && id in q.rows && IsFinished(q.rows[id])
    ensures id in Next(q, s).rows
    ensures !IsFinished(Next(q, s).rows[id]) <==> Requeues(q, s, id)
    ensures Requeues(q, s, id) ==> !StillHeld(q, s.w)
  {
    match s
    case Report(w, outcome, failClip) => ReportOnFinished(q, w, outcome, failClip, id);
    case ReportDeliverFailure(w, reason) => RetryOnFinished(q, w, reason, id);
    case ReportTimeout(w, reason) =>
    case Sweep(timeout) =>
    case ClaimNext(_, _, _) =>
    case Tick(_) =>
    case Enqueue(_, _, _, _) =>
    case ReportLost(_) =>
  }

  lemma ReportOnFinished(q: Queue, w: Worker, outcome: Outcome, failClip: bool, id: JobId)
    requires w in q.holds && id in q.rows && IsFinished(q.rows[id])
    ensures var after := ReportBy(q, w, outcome, failClip);
            id in after.rows && (!IsFinished(after.rows[id]) <==> outcome.AsHandedBack? && q.holds[w].id == id)
  {
  }

  lemma RetryOnFinished(q: Queue, w: Worker, reason: string, id: JobId)
    requires w in q.holds && id in q.rows && IsFinished(q.rows[id])
    ensures var after, c := RetryBy(q, w, reason), q.holds[w];
            id in after.rows
              && (!IsFinished(after.rows[id]) <==> c.id == id && c.copy.attempts + 1 < c.copy.maxAttempts)
  {
  }

  /** When those two statements run only while their claim is held, a finished job stays finished. */
  lemma {:induction false} FinishedStaysFinished(q: Queue, steps: seq<Step>, id: JobId)
    requires Inv(q) && IsOrderlyRun(q, steps) && id in q.rows && IsFinished(q.rows[id])
    ensures IsRun(q, steps) && id in After(q, steps).rows && IsFinished(After(q, steps).rows[id])
    decreases |steps|
  {
    if steps == [] {
    } else {
      FinishedJobRevivedExactlyWhen(q, steps[0], id);
      StepKeepsInv(q, steps[0]);
      FinishedStaysFinished(Next(q, steps[0]), steps[1..], id);
    }
  }

  lemma PrependStep(q: Queue, s: Step, q': Queue, rest: seq<Step>, steps: seq<Step>, end: Queue)
    requires Enabled(q, s) && Next(q, s) == q' && IsRun(q', rest) && After(q', rest) == end && steps == [s] + rest
    ensures IsRun(q, steps) && After(q, steps) == end
  {
    assert steps[1..] == rest;
  }

  /** Worker `w` sits on an old claim of the only job, a media job with `k` attempts counted. */
  ghost predicate Outlived(q: Queue, w: Worker, v: Worker, k: nat) {
    && q.rows.Keys == {1}
    && q.rows[1].kind == Media && q.rows[1].runAfter == 0 && q.rows[1].maxAttempts == 5 && q.rows[1].attempts == k <= 5
    && q.rows[1].state == (if k < 5 then Queued else Dead)
    && w in q.holds && q.holds[w].id == 1 && q.holds[w].copy.kind == Media && v !in q.holds
  }

  /** Another worker claims the job and loses it; the reaper counts an attempt. */
  function LostAndReaped(q: Queue, v: Worker): (r: Queue)
    requires 1 in q.rows
  {
    var claimed := ClaimBy(q, v, 1);
    SweepAll(claimed.(holds := claimed.holds - {v}, now := claimed.now + 1), 0)
  }

  lemma OutlivedOnce(q: Queue, w: Worker, v: Worker, k: nat)
    requires Outlived(q, w, v, k) && k < 5 && w != v
    ensures Outlived(LostAndReaped(q, v), w, v, k + 1)
  {
  }

  lemma LostAndReapedRun(q: Queue, w: Worker, v: Worker, k: nat, rest: seq<Step>, end: Queue)
    returns (steps: seq<Step>)
    requires Outlived(q, w, v, k) && k < 5 && IsRun(LostAndReaped(q, v), rest)
    requires After(LostAndReaped(q, v), rest) == end
    ensures IsRun(q, steps) && After(q, steps) == end
  {
    var q1 := ClaimBy(q, v, 1);
    var q2 := q1.(holds := q1.holds - {v});
    var q3 := q2.(now := q2.now + 1);
    var s3 := [Sweep(0)] + rest;
    var s2 := [Tick(1)] + s3;
    var s1 := [ReportLost(v)] + s2;
    steps := [ClaimNext(v, 1, {})] + s1;
    PrependStep(q3, Sweep(0), LostAndReaped(q, v), rest, s3, end);
    PrependStep(q2, Tick(1), q3, s3, s2, end);
    PrependStep(q1, ReportLost(v), q2, s2, s1, end);
    PrependStep(q, ClaimNext(v, 1, {}), q1, s1, steps, end);
  }

  /** From there the job can be counted out while `w` still sits on its claim. */
  lemma {:induction false} OutlivedToTheEnd(q: Queue, w: Worker, v: Worker, k: nat) returns (steps: seq<Step>)
    requires Outlived(q, w, v, k) && w != v
    ensures IsRun(q, steps) && Outlived(After(q, steps), w, v, 5)
    decreases 5 - k
  {
    if k == 5 {
      return [];
    }
    OutlivedOnce(q, w, v, k);
    var rest := OutlivedToTheEnd(LostAndReaped(q, v), w, v, k + 1);
    steps := LostAndReapedRun(q, w, v, k, rest, After(LostAndReaped(q, v), rest));
  }

  const EMPTY: Queue := Queue(map[], 0, {}, map[], 0, map[], map[], map[], map[])

  /** The empty queue after a job was enqueued, claimed by `w` and reaped. */
  function FirstReap(w: Worker, kind: Kind): (r: Queue) {
    var claimed := ClaimBy(EMPTY.(rows := map[1 := NewJob(kind, None, 0)]), w, 1);
    SweepAll(claimed.(now := claimed.now + 1), 0)
  }

  lemma FirstReapOutlived(w: Worker, v: Worker)
    requires w != v
    ensures Outlived(FirstReap(w, Media), w, v, 1)
  {
  }

  lemma FirstReapRun(w: Worker, kind: Kind, rest: seq<Step>, end: Queue) returns (steps: seq<Step>)
    requires IsRun(FirstReap(w, kind), rest) && After(FirstReap(w, kind), rest) == end
    ensures IsRun(EMPTY, steps) && After(EMPTY, steps) == end
  {
    var q1 := EMPTY.(rows := map[1 := NewJob(kind, None, 0)]);
    var q2 := ClaimBy(q1, w, 1);
    var q3 := q2.(now := q2.now + 1);
    var s3 := [Sweep(0)] + rest;
    var s2 := [Tick(1)] + s3;
    var s1 := [ClaimNext(w, 1, {})] + s2;
    steps := [Enqueue(1, kind, None, 0)] + s1;
    PrependStep(q3, Sweep(0), FirstReap(w, kind), rest, s3, end);
    PrependStep(q2, Tick(1), q3, s3, s2, end);
    PrependStep(q1, ClaimNext(w, 1, {}), q2, s2, s1, end);
    PrependStep(EMPTY, Enqueue(1, kind, None, 0), q1, s1, steps, end);
  }

  lemma HandBackRevives(q: Queue, w: Worker, v: Worker)
    requires Outlived(q, w, v, 5)
    ensures Enabled(q, Report(w, AsHandedBack, false)) && 1 in q.rows && q.rows[1].state == Dead
    ensures var after := Next(q, Report(w, AsHandedBack, false));
            1 in after.rows && after.rows[1].state == Queued && after.rows[1].attempts == after.rows[1].maxAttempts
  {
  }

  /** A run from the empty queue after which a hand-back revives a job that five reaps have killed. */
  lemma StaleHandBackRevivesDeadJob(w: Worker, v: Worker) returns (steps: seq<Step>)
    requires w != v
    ensures Initial(EMPTY) && IsRun(EMPTY, steps)
    ensures var q := After(EMPTY, steps);
            && Enabled(q, Report(w, AsHandedBack, false)) && 1 in q.rows && q.rows[1].state == Dead
            && var after := Next(q, Report(w, AsHandedBack, false));
               1 in after.rows && after.rows[1].state == Queued && after.rows[1].attempts == after.rows[1].maxAttempts
  {
    FirstReapOutlived(w, v);
    var rest := OutlivedToTheEnd(FirstReap(w, Media), w, v, 1);
    var end := After(FirstReap(w, Media), rest);
    steps := FirstReapRun(w, Media, rest, end);
    HandBackRevives(end, w, v);
  }

  /** A delivery claimed by `w` and reaped, then claimed by `v` and done. */
  function DoneByAnother(w: Worker, v: Worker): (r: Queue) {
    ReportBy(ClaimBy(FirstReap(w, Delivery), v, 1), v, AsDone(None), false)
  }

  lemma DoneByAnotherRun(w: Worker, v: Worker) returns (steps: seq<Step>)
    requires w != v
    ensures IsRun(FirstReap(w, Delivery), steps) && After(FirstReap(w, Delivery), steps) == DoneByAnother(w, v)
  {
    var q := FirstReap(w, Delivery);
    var claimed := ClaimBy(q, v, 1);
    var rest := [Report(v, AsDone(None), false)] + [];
    steps := [ClaimNext(v, 1, {})] + rest;
    PrependStep(claimed, Report(v, AsDone(None), false), DoneByAnother(w, v), [], rest, DoneByAnother(w, v));
    PrependStep(q, ClaimNext(v, 1, {}), claimed, rest, steps, DoneByAnother(w, v));
  }

  lemma RetryRevives(w: Worker, v: Worker, reason: string)
    requires w != v
    ensures var q := DoneByAnother(w, v);
            && Enabled(q, ReportDeliverFailure(w, reason)) && 1 in q.rows && q.rows[1].state == Done
            && var after := Next(q, ReportDeliverFailure(w, reason));
               1 in after.rows && after.rows[1].state == Queued
  {
  }

  /** A run from the empty queue after which a late retry revives a delivery that another worker has done. */
  lemma StaleRetryRevivesDoneJob(w: Worker, v: Worker, reason: string) returns (steps: seq<Step>)
    requires w != v
    ensures IsRun(EMPTY, steps)
    ensures var q := After(EMPTY, steps);
            && Enabled(q, ReportDeliverFailure(w, reason)) && 1 in q.rows && q.rows[1].state == Done
            && var after := Next(q, ReportDeliverFailure(w, reason));
               1 in after.rows && after.rows[1].state == Queued
  {
    var rest := DoneByAnotherRun(w, v);
    steps := FirstReapRun(w, Delivery, rest, DoneByAnother(w, v));
    RetryRevives(w, v, reason);
  }

  // ------------------------------------------------------------ a delivery that keeps failing

  /** One claim of a delivery job and the failure reported for it. */
  datatype Try = Try(worker: Worker, claimedAt: nat, failedAt: nat, reason: string)

  function AfterTry(j: Job, t: Try): (r: Job) {
    var copy := Claimed(j, t.worker, t.claimedAt);
    RetryScheduled(copy, copy, t.failedAt, t.reason)
  }

  function AfterTries(j: Job, tries: seq<Try>): (r: Job) {
    if tries == [] then j else AfterTry(AfterTries(j, tries[..|tries| - 1]), tries[|tries| - 1])
  }

  /** Every claim finds the job due, and its failure is reported afterwards. */
  predicate Possible(j: Job, tries: seq<Try>) {
    tries == [] ||
    (var last := tries[|tries| - 1];
     && Possible(j, tries[..|tries| - 1])
     && IsDue(AfterTries(j, tries[..|tries| - 1]), last.claimedAt)
     && last.claimedAt <= last.failedAt)
  }

  /** The waits imposed after the first `n` failures. */
  function TotalBackoff(n: nat): (secs: nat) {
    if n == 0 then 0 else TotalBackoff(n - 1) + Backoff(n - 1)
  }

  lemma {:induction false} TotalBackoffValue(n: nat)
    requires n >= 2
    ensures TotalBackoff(n) == 30 + 120 + 900 * (n - 2)
  {
    if n > 2 {
      TotalBackoffValue(n - 1);
    } else {
      assert TotalBackoff(1) == 30;
    }
  }

  lemma {:induction false} TryLadder(j: Job, tries: seq<Try>)
    requires j.state == Queued && j.attempts == 0 && j.maxAttempts >= 1 && Possible(j, tries)
    ensures |tries| <= j.maxAttempts
    ensures AfterTries(j, tries).maxAttempts == j.maxAttempts
    ensures |tries| < j.maxAttempts ==> AfterTries(j, tries).state == Queued && AfterTries(j, tries).attempts == |tries|
    ensures 0 < |tries| < j.maxAttempts ==>
              AfterTries(j, tries).runAfter == tries[|tries| - 1].failedAt + Backoff(|tries| - 1)
    ensures |tries| == j.maxAttempts ==> AfterTries(j, tries).state == Dead
    ensures 0 < |tries| ==> tries[|tries| - 1].claimedAt >= tries[0].claimedAt + TotalBackoff(|tries| - 1)
    decreases |tries|
  {
    if tries == [] {
    } else {
      var init := tries[..|tries| - 1];
      TryLadder(j, init);
      if init != [] {
        assert init[|init| - 1] == tries[|tries| - 2] && init[0] == tries[0];
        assert tries[|tries| - 2].failedAt >= tries[|tries| - 2].claimedAt;
      }
    }
  }

  /**
   A delivery job with `m >= 3` attempts that fails every time is dead after exactly `m`
   tries, never tried again, and its last try comes at least 30 + 120 + 900 (m - 3) seconds
   after its first.
   */
  lemma FailingDeliveryDies(j: Job, tries: seq<Try>)
    requires j.state == Queued && j.attempts == 0 && j.maxAttempts >= 3 && Possible(j, tries)
    ensures |tries| <= j.maxAttempts
    ensures AfterTries(j, tries).state == Dead <==> |tries| == j.maxAttempts
    ensures |tries| == j.maxAttempts ==>
              tries[|tries| - 1].claimedAt - tries[0].claimedAt >= 30 + 120 + 900 * (j.maxAttempts - 3)
    ensures TotalBackoff(j.maxAttempts - 1) == 30 + 120 + 900 * (j.maxAttempts - 3)
  {
    TryLadder(j, tries);
    TotalBackoffValue(j.maxAttempts - 1);
  }

  // ------------------------------------------------------------ the same in a run of the queue

  /** Whatever the step does elsewhere, job `id` is only claimed, and given up only with a failure to deliver. */
  ghost predicate OnlyFails(q: Queue, s: Step, id: JobId)
    requires id in q.rows
  {
    match s
    case Report(w, _, _) => w in q.holds ==> q.holds[w].id != id
    case ReportTimeout(w, _) => w in q.holds ==> q.holds[w].id != id
    case ReportLost(w) => w in q.holds ==> q.holds[w].id != id
    case Sweep(timeout) => !IsStale(q.rows[id], q.now, timeout)
    case _ => true
  }

  ghost predicate IsFailingRun(q: Queue, steps: seq<Step>, id: JobId)
    decreases |steps|
  {
    || steps == []
    || (&& id in q.rows && Enabled(q, steps[0]) && OnlyFails(q, steps[0], id)
        && IsFailingRun(Next(q, steps[0]), steps[1..], id))
  }

  /** The last failure, if any, has been reported by now. */
  predicate ReportedBy(tries: seq<Try>, now: nat) {
    tries != [] ==> tries[|tries| - 1].failedAt <= now
  }

  /** The row is where these tries have brought the job, or claimed from there by `holder`; nobody else claims it. */
  ghost predicate OnLadder(q: Queue, id: JobId, job: Job, base: nat, tries: seq<Try>, holder: Option<Worker>) {
    && id in q.rows && Possible(job, tries) && ReportedBy(tries, q.now)
    && (forall v :: v in q.holds && q.holds[v].id == id ==> holder == Some(v))
    && Counter(q.claims, id) == base + |tries| + (if holder.Some? then 1 else 0)
    && match holder
       case None => q.rows[id] == AfterTries(job, tries)
       case Some(w) =>
         && w in q.holds && q.holds[w].id == id && q.holds[w].copy == q.rows[id] && q.rows[id].lockedAt.Some?
         && var at := q.rows[id].lockedAt.value;
            at <= q.now && IsDue(AfterTries(job, tries), at) && q.rows[id] == Claimed(AfterTries(job, tries), w, at)
  }

  lemma ClaimOnLadder(q: Queue, v: Worker, other: JobId, skipped: set<JobId>, id: JobId, job: Job, base: nat,
                      tries: seq<Try>, holder: Option<Worker>) returns (holder': Option<Worker>)
    requires OnLadder(q, id, job, base, tries, holder) && Enabled(q, ClaimNext(v, other, skipped))
    ensures OnLadder(ClaimBy(q, v, other), id, job, base, tries, holder')
  {
    holder' := if other == id then Some(v) else holder;
  }

  /** Neither the row nor who claims it changes. */
  ghost predicate Untouched(q: Queue, q': Queue, id: JobId)
    requires id in q.rows
  {
    && id in q'.rows && q'.rows[id] == q.rows[id] && q'.now >= q.now && Counter(q'.claims, id) == Counter(q.claims, id)
    && (forall v :: v in q'.holds ==> v in q.holds && q'.holds[v] == q.holds[v])
    && (forall v :: v in q.holds && q.holds[v].id == id ==> v in q'.holds)
  }

  lemma UntouchedOnLadder(q: Queue, q': Queue, id: JobId, job: Job, base: nat, tries: seq<Try>,
                          holder: Option<Worker>)
    requires OnLadder(q, id, job, base, tries, holder) && Untouched(q, q', id)
    ensures OnLadder(q', id, job, base, tries, holder)
  {
  }

  lemma RetryElsewhere(q: Queue, w: Worker, reason: string, id: JobId)
    requires id in q.rows && w in q.holds && q.holds[w].id != id
    ensures Untouched(q, RetryBy(q, w, reason), id)
  {
  }

  lemma RetryOfOwnRow(q: Queue, w: Worker, reason: string, id: JobId)
    requires id in q.rows && w in q.holds && q.holds[w].id == id
    ensures var q' := RetryBy(q, w, reason);
            && id in q'.rows && q'.rows[id] == RetryScheduled(q.rows[id], q.holds[w].copy, q.now, reason)
            && q'.holds == q.holds - {w} && q'.now == q.now && q'.claims == q.claims
  {
  }

  lemma OneMoreTry(job: Job, tries: seq<Try>, last: Try)
    requires Possible(job, tries) && IsDue(AfterTries(job, tries), last.claimedAt) && last.claimedAt <= last.failedAt
    ensures Possible(job, tries + [last]) && AfterTries(job, tries + [last]) == AfterTry(AfterTries(job, tries), last)
  {
    var longer := tries + [last];
    assert longer[..|longer| - 1] == tries;
  }

  lemma FailureOnLadder(q: Queue, w: Worker, reason: string, id: JobId, job: Job, base: nat,
                        tries: seq<Try>, holder: Option<Worker>)
    returns (tries': seq<Try>, holder': Option<Worker>)
    requires OnLadder(q, id, job, base, tries, holder) && w in q.holds
    ensures OnLadder(RetryBy(q, w, reason), id, job, base, tries', holder')
  {
    if q.holds[w].id == id {
      var last := Try(w, q.rows[id].lockedAt.value, q.now, reason);
      tries', holder' := tries + [last], None;
      OneMoreTry(job, tries, last);
      RetryOfOwnRow(q, w, reason, id);
    } else {
      tries', holder' := tries, holder;
      RetryElsewhere(q, w, reason, id);
      UntouchedOnLadder(q, RetryBy(q, w, reason), id, job, base, tries, holder);
    }
  }

  lemma ReportElsewhere(q: Queue, w: Worker, outcome: Outcome, failClip: bool, id: JobId)
    requires id in q.rows && w in q.holds && q.holds[w].id != id
    ensures Untouched(q, ReportBy(q, w, outcome, failClip), id)
  {
  }

  lemma TimeoutElsewhere(q: Queue, w: Worker, reason: string, id: JobId)
    requires id in q.rows && w in q.holds && q.holds[w].id != id
    ensures Untouched(q, TimeoutBy(q, w, reason), id)
  {
  }

  lemma OtherStepElsewhere(q: Queue, s: Step, id: JobId)
    requires id in q.rows && Enabled(q, s) && OnlyFails(q, s, id) && !s.ClaimNext? && !s.ReportDeliverFailure?
    ensures Untouched(q, Next(q, s), id)
  {
    match s
    case Report(w, outcome, failClip) => ReportElsewhere(q, w, outcome, failClip, id);
    case ReportTimeout(w, reason) => TimeoutElsewhere(q, w, reason, id);
    case _ =>
  }

  lemma StepOnLadder(q: Queue, s: Step, id: JobId, job: Job, base: nat, tries: seq<Try>,
                     holder: Option<Worker>) returns (tries': seq<Try>, holder': Option<Worker>)
    requires OnLadder(q, id, job, base, tries, holder) && Enabled(q, s) && OnlyFails(q, s, id)
    ensures OnLadder(Next(q, s), id, job, base, tries', holder')
  {
    match s
    case ClaimNext(v, other, skipped) =>
      tries' := tries;
      holder' := ClaimOnLadder(q, v, other, skipped, id, job, base, tries, holder);
    case ReportDeliverFailure(w, reason) =>
      tries', holder' := FailureOnLadder(q, w, reason, id, job, base, tries, holder);
    case _ =>
      tries', holder' := tries, holder;
      OtherStepElsewhere(q, s, id);
      UntouchedOnLadder(q, Next(q, s), id, job, base, tries, holder);
  }

  lemma {:induction false} RunOnLadder(q: Queue, steps: seq<Step>, id: JobId, job: Job, base: nat, tries: seq<Try>,
                                       holder: Option<Worker>) returns (tries': seq<Try>, holder': Option<Worker>)
    requires OnLadder(q, id, job, base, tries, holder) && IsFailingRun(q, steps, id)
    ensures IsRun(q, steps) && OnLadder(After(q, steps), id, job, base, tries', holder')
    decreases |steps|
  {
    if steps == [] {
      tries', holder' := tries, holder;
    } else {
      var t, h := StepOnLadder(q, steps[0], id, job, base, tries, holder);
      tries', holder' := RunOnLadder(Next(q, steps[0]), steps[1..], id, job, base, t, h);
    }
  }

  /**
   In any run of the queue in which a queued, unclaimed job with `m` attempts is only claimed and
   reported as failed, whatever happens to other jobs: it is claimed at most `m` times, is dead
   exactly after `m` failures, and then at least 30 + 120 + 900 (m - 3) seconds have passed since
   its first claim if `m >= 3`.
   */
  lemma FailingDeliveryDiesInRun(q: Queue, steps: seq<Step>, id: JobId) returns (tries: seq<Try>)
    requires id in q.rows && q.rows[id].state == Queued && q.rows[id].attempts == 0 && q.rows[id].maxAttempts >= 1
    requires forall v :: v in q.holds ==> q.holds[v].id != id
    requires IsFailingRun(q, steps, id)
    ensures IsRun(q, steps) && id in After(q, steps).rows && Possible(q.rows[id], tries)
    ensures var m, end := q.rows[id].maxAttempts, After(q, steps);
            var state := end.rows[id].state;
            && |tries| <= m && (state == Dead <==> |tries| == m) && state != Done
            && Counter(end.claims, id) == Counter(q.claims, id) + |tries| + (if state == Running then 1 else 0)
            && Counter(end.claims, id) <= Counter(q.claims, id) + m
            && (m >= 3 && state == Dead ==> end.now >= tries[0].claimedAt + 30 + 120 + 900 * (m - 3))
  {
    var job := q.rows[id];
    var holder;
    tries, holder := RunOnLadder(q, steps, id, job, Counter(q.claims, id), [], None);
    TryLadder(job, tries);
    if job.maxAttempts >= 3 {
      FailingDeliveryDies(job, tries);
    }
  }
}
