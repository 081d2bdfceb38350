/**
 * The task record of `models.py`: its status, timestamps and restart
 * bookkeeping, and the transitions `set_as_failed`, `set_as_completed` and
 * `setup_for_restart`.  Time is a whole number of seconds supplied by the
 * caller as `now` (the source reads `timezone.now()`).
 */
module Models {
  import opened Wrappers
  import opened Codec

  type Time = int

  datatype Status = Created | Completed | Failed

  /**
   * One row of the task table.  `restartAttempts`, `restartDelay` and
   * `maxRestarts` are Django `IntegerField`s, so they are plain integers here.
   */
  datatype TaskRow = TaskRow(
    id: int,
    funcName: string,
    queue: string,
    status: Status,
    created: Time,
    completed: Option<Time>,
    failed: Option<Time>,
    notBefore: Option<Time>,
    rawParams: Option<string>,
    rawReturned: Option<string>,
    restartAttempts: int,
    restartDelay: int,
    maxRestarts: int)
  {
    /** Retries are enabled and not yet used up. */
    predicate CanBeRestarted() {
      maxRestarts > 0 && restartAttempts < maxRestarts
    }

    /** The task has an eta and it lies in the future. */
    predicate IsPostponed(now: Time) {
      notBefore.Some? && now < notBefore.value
    }

    /** The decoded call arguments, `None` for a null or empty raw field. */
    function Params(c: Codec): (v: Value)
      ensures rawParams.None? || rawParams == Some("") ==> v == VNone
      ensures rawParams.Some? && rawParams.value != "" ==> v == c.decode(rawParams.value)
    {
      DecodeField(rawParams, c)
    }

    /** The decoded return value, `None` for a null or empty raw field. */
    function Returned(c: Codec): (v: Value)
      ensures rawReturned.None? || rawReturned == Some("") ==> v == VNone
      ensures rawReturned.Some? && rawReturned.value != "" ==> v == c.decode(rawReturned.value)
    {
      DecodeField(rawReturned, c)
    }

    /** The row after `set_as_failed` at time `now`. */
    function AsFailed(now: Time): (r: TaskRow)
      ensures r.status == Failed && r.failed == Some(now)
      ensures r.completed == completed && r.notBefore == notBefore
      ensures r.restartAttempts == restartAttempts
      ensures SameJob(r, this)
    {
      this.(status := Failed, failed := Some(now))
    }

    /** The row after `set_as_completed` at time `now`. */
    function AsCompleted(now: Time): (r: TaskRow)
      ensures r.status == Completed && r.completed == Some(now)
      ensures r.failed == failed && r.notBefore == notBefore
      ensures r.restartAttempts == restartAttempts
      ensures SameJob(r, this)
    {
      this.(status := Completed, completed := Some(now))
    }

    /** The row after `setup_for_restart` at time `now`. */
    function ForRestart(now: Time): (r: TaskRow)
      ensures r.restartAttempts == restartAttempts + 1
      ensures r.notBefore == Some(now + restartDelay)
      ensures r.status == status && r.completed == completed && r.failed == failed
      ensures SameJob(r, this)
    {
      this.(restartAttempts := restartAttempts + 1, notBefore := Some(now + restartDelay))
    }
  }

  /**
   * Two rows describe the same job: every field that no lifecycle transition
   * touches is equal.
   */
  predicate SameJob(a: TaskRow, b: TaskRow) {
    a.id == b.id && a.funcName == b.funcName && a.queue == b.queue &&
    a.created == b.created && a.rawParams == b.rawParams &&
    a.rawReturned == b.rawReturned && a.restartDelay == b.restartDelay &&
    a.maxRestarts == b.maxRestarts
  }

  /** `can_be_restarted` with retries switched off never allows a restart. */
  lemma NoRestartWhenDisabled(t: TaskRow)
    requires t.maxRestarts <= 0
    ensures !t.CanBeRestarted()
  {
  }

  /**
   * Backoff: after a restart with a positive delay the task is postponed at
   * the moment of the failure, and due again from `now + restartDelay` on.
   */
  lemma RestartPostpones(t: TaskRow, now: Time)
    requires t.restartDelay > 0
    ensures t.ForRestart(now).IsPostponed(now)
    ensures forall later :: later >= now + t.restartDelay ==> !t.ForRestart(now).IsPostponed(later)
  {
  }

  /** A restart taken only when allowed keeps `0 <= restartAttempts <= maxRestarts`. */
  lemma GuardedRestartKeepsBound(t: TaskRow, now: Time)
    requires 0 <= t.restartAttempts <= t.maxRestarts
    requires t.CanBeRestarted()
    ensures 0 <= t.ForRestart(now).restartAttempts <= t.ForRestart(now).maxRestarts
  {
  }

  /** The row after one `setup_for_restart` per entry of `nows`, in order. */
  function RestartRun(t: TaskRow, nows: seq<Time>): TaskRow
    decreases |nows|
  {
    if |nows| == 0 then t else RestartRun(t.ForRestart(nows[0]), nows[1..])
  }

  /** Every restart of the run was taken while `can_be_restarted` held. */
  ghost predicate GuardedRun(t: TaskRow, nows: seq<Time>)
    decreases |nows|
  {
    |nows| == 0 || (t.CanBeRestarted() && GuardedRun(t.ForRestart(nows[0]), nows[1..]))
  }

  /**
   * A run of guarded restarts adds one attempt per restart, never goes past
   * `maxRestarts`, leaves the job, status and terminal timestamps alone, and
   * leaves the eta at the last failure time plus the delay.
   */
  lemma {:induction false} GuardedRunBounded(t: TaskRow, nows: seq<Time>)
    requires 0 <= t.restartAttempts <= t.maxRestarts
    requires GuardedRun(t, nows)
    ensures RestartRun(t, nows).restartAttempts == t.restartAttempts + |nows|
    ensures |nows| <= t.maxRestarts - t.restartAttempts
    ensures RestartRun(t, nows).restartAttempts <= t.maxRestarts
    ensures SameJob(RestartRun(t, nows), t) && RestartRun(t, nows).status == t.status
    ensures |nows| > 0 ==> RestartRun(t, nows).notBefore == Some(nows[|nows| - 1] + t.restartDelay)
    decreases |nows|
  {
    if |nows| > 0 {
      var t' := t.ForRestart(nows[0]);
      GuardedRunBounded(t', nows[1..]);
      if |nows| > 1 {
        assert nows[1..][|nows[1..]| - 1] == nows[|nows| - 1];
      }
    }
  }

  /**
   * From a fresh record, at most `maxRestarts` guarded restarts can happen,
   * none when retries are disabled, and after exactly `maxRestarts` of them
   * no further restart is allowed.
   */
  lemma FreshRecordRestartsAtMostMax(t: TaskRow, nows: seq<Time>)
    requires t.restartAttempts == 0 && t.maxRestarts >= 0
    requires GuardedRun(t, nows)
    ensures |nows| <= t.maxRestarts
    ensures t.maxRestarts == 0 ==> |nows| == 0
    ensures |nows| == t.maxRestarts ==> !RestartRun(t, nows).CanBeRestarted()
  {
    GuardedRunBounded(t, nows);
  }

  /**
   * An in-memory model instance.  The transitions update its fields in
   * place; `Row` is the value those fields hold.
   */
  class TaskModel {
    var id: int
    var funcName: string
    var queue: string
    var status: Status
    var created: Time
    var completed: Option<Time>
    var failed: Option<Time>
    var notBefore: Option<Time>
    var rawParams: Option<string>
    var rawReturned: Option<string>
    var restartAttempts: int
    var restartDelay: int
    var maxRestarts: int

    function Row(): TaskRow
      reads this
    {
      TaskRow(id, funcName, queue, status, created, completed, failed, notBefore,
              rawParams, rawReturned, restartAttempts, restartDelay, maxRestarts)
    }

    /** An instance loaded from a table row. */
    constructor (r: TaskRow)
      ensures Row() == r
    {
      id, funcName, queue, status := r.id, r.funcName, r.queue, r.status;
      created, completed, failed, notBefore := r.created, r.completed, r.failed, r.notBefore;
      rawParams, rawReturned := r.rawParams, r.rawReturned;
      restartAttempts, restartDelay, maxRestarts := r.restartAttempts, r.restartDelay, r.maxRestarts;
    }

    method SetAsFailed(now: Time)
      modifies this
      ensures status == Failed && failed == Some(now)
      ensures Row() == old(Row()).AsFailed(now)
    {
      status := Failed;
      failed := Some(now);
    }

    method SetAsCompleted(now: Time)
      modifies this
      ensures status == Completed && completed == Some(now)
      ensures Row() == old(Row()).AsCompleted(now)
    {
      status := Completed;
      completed := Some(now);
    }

    method SetupForRestart(now: Time)
      modifies this
      ensures restartAttempts == old(restartAttempts) + 1
      ensures notBefore == Some(now + restartDelay)
      ensures Row() == old(Row()).ForRestart(now)
    {
      restartAttempts := restartAttempts + 1;
      notBefore := Some(now + restartDelay);
    }
  }
}
