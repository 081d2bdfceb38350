/**
 * The administrative commands `detete_failed_tasks` and
 * `mark_failed_tasks_consumable`, as in-place updates of the task table.
 */
module Commands {
  import opened Models
  import opened Tables

  /** The ids of the FAILED rows, in table order: the list the delete command logs. */
  function FailedIds(rows: seq<TaskRow>): (ids: seq<int>)
    ensures |ids| == Count(rows, Failed)
    ensures forall id :: id in ids <==> exists t :: t in rows && t.status == Failed && t.id == id
    decreases |rows|
  {
    if |rows| == 0 then []
    else
      assert forall t :: t in rows ==> t == rows[0] || t in rows[1..];
      (if rows[0].status == Failed then [rows[0].id] else []) + FailedIds(rows[1..])
  }

  /** The table after `filter(status=FAILED).delete()`. */
  function WithoutFailed(rows: seq<TaskRow>): (r: seq<TaskRow>)
    ensures forall t :: t in r <==> t in rows && t.status != Failed
    ensures |r| == |rows| - Count(rows, Failed)
    decreases |rows|
  {
    if |rows| == 0 then []
    else
      assert forall t :: t in rows ==> t == rows[0] || t in rows[1..];
      var rest := WithoutFailed(rows[1..]);
      if rows[0].status == Failed then rest
      else
        assert ([rows[0]] + rest)[1..] == rest;
        [rows[0]] + rest
  }

  /** Deleting the FAILED rows leaves the number of CREATED and of COMPLETED rows as it was. */
  lemma {:induction false} WithoutFailedCounts(rows: seq<TaskRow>)
    ensures Count(WithoutFailed(rows), Created) == Count(rows, Created)
    ensures Count(WithoutFailed(rows), Completed) == Count(rows, Completed)
    decreases |rows|
  {
    if |rows| > 0 {
      WithoutFailedCounts(rows[1..]);
      if rows[0].status != Failed {
        assert WithoutFailed(rows)[1..] == WithoutFailed(rows[1..]);
      }
    }
  }

  /** Deleting rows keeps the ids increasing. */
  lemma {:induction false} WithoutFailedKeepsIdOrder(rows: seq<TaskRow>)
    requires IdsIncreasing(rows)
    ensures IdsIncreasing(WithoutFailed(rows))
    decreases |rows|
  {
    if |rows| > 0 {
      IdsIncreasingTail(rows);
      WithoutFailedKeepsIdOrder(rows[1..]);
      if rows[0].status != Failed {
        IdsIncreasingHead(rows);
        IdsIncreasingCons(rows[0], WithoutFailed(rows[1..]));
      }
    }
  }

  /** The delete is idempotent: a second run finds nothing to delete and changes nothing. */
  lemma {:induction false} DeleteFailedIdempotent(rows: seq<TaskRow>)
    ensures WithoutFailed(WithoutFailed(rows)) == WithoutFailed(rows)
    ensures FailedIds(WithoutFailed(rows)) == []
    decreases |rows|
  {
    if |rows| > 0 {
      DeleteFailedIdempotent(rows[1..]);
      var rest := WithoutFailed(rows[1..]);
      if rows[0].status != Failed {
        assert ([rows[0]] + rest)[1..] == rest;
      }
    }
  }

  /** One FAILED row made consumable again: CREATED with no attempts used. */
  function Reopen(t: TaskRow): (r: TaskRow)
    ensures r.status != Failed && SameJob(r, t) && r.notBefore == t.notBefore
    ensures t.status == Failed ==> r.status == Created && r.restartAttempts == 0
    ensures t.status != Failed ==> r == t
  {
    if t.status == Failed then t.(status := Created, restartAttempts := 0) else t
  }

  /** The table after `filter(status=FAILED).update(status=CREATED, restart_attempts=0)`. */
  function Reopened(rows: seq<TaskRow>): (r: seq<TaskRow>)
    ensures |r| == |rows|
    ensures forall i :: 0 <= i < |rows| && rows[i].status != Failed ==> r[i] == rows[i]
    ensures forall i :: 0 <= i < |rows| && rows[i].status == Failed ==>
      r[i].status == Created && r[i].restartAttempts == 0 && SameJob(r[i], rows[i]) &&
      r[i].notBefore == rows[i].notBefore && r[i].failed == rows[i].failed &&
      r[i].completed == rows[i].completed
    ensures forall i :: 0 <= i < |rows| ==> r[i].id == rows[i].id && r[i].status != Failed
    decreases |rows|
  {
    if |rows| == 0 then []
    else [Reopen(rows[0])] + Reopened(rows[1..])
  }

  /**
   * Afterwards no row is FAILED, every formerly FAILED row counts as CREATED,
   * and the COMPLETED rows are as many as before.
   */
  lemma {:induction false} ReopenedCounts(rows: seq<TaskRow>)
    ensures Count(Reopened(rows), Failed) == 0
    ensures Count(Reopened(rows), Created) == Count(rows, Created) + Count(rows, Failed)
    ensures Count(Reopened(rows), Completed) == Count(rows, Completed)
    decreases |rows|
  {
    if |rows| > 0 {
      var r := Reopened(rows);
      ReopenedCounts(rows[1..]);
      assert r[1..] == Reopened(rows[1..]);
      assert r[0].status == if rows[0].status == Failed then Created else rows[0].status;
    }
  }

  /** Marking is idempotent: with no FAILED row left, a second run changes nothing. */
  lemma ReopenedIdempotent(rows: seq<TaskRow>)
    ensures Reopened(Reopened(rows)) == Reopened(rows)
  {
    var r := Reopened(rows);
    forall i | 0 <= i < |r| ensures r[i].status != Failed {
      assert rows[i].status == Failed || r[i] == rows[i];
    }
  }

  /** `detete_failed_tasks`: collect the FAILED ids, then delete those rows. */
  method DeleteFailedTasks(table: TaskTable) returns (ids: seq<int>)
    requires table.Valid()
    modifies table
    ensures table.Valid()
    ensures ids == FailedIds(old(table.rows))
    ensures table.rows == WithoutFailed(old(table.rows))
    ensures table.nextId == old(table.nextId)
  {
    ids := FailedIds(table.rows);
    WithoutFailedKeepsIdOrder(table.rows);
    table.rows := WithoutFailed(table.rows);
  }

  /** `mark_failed_tasks_consumable`: one bulk update of the FAILED rows. */
  method MarkFailedTasksConsumable(table: TaskTable)
    requires table.Valid()
    modifies table
    ensures table.Valid()
    ensures table.rows == Reopened(old(table.rows))
    ensures table.nextId == old(table.nextId)
  {
    table.rows := Reopened(table.rows);
  }
}
