/**
 * One iteration of `task_consumer` in `_private/consumers.py`: claim a row of
 * the queue, hand it to the processor, and decide whether the processor's
 * error ends the loop.
 */
module Consumers {
  import opened Wrappers
  import opened Models
  import opened Tables
  import opened Selection

  /** Fallback of the `FAIL_SILENTLY` setting. */
  const FAIL_SILENTLY: bool := true

  /**
   * `process` stands for `task_processor`: given the claimed row (or `None`),
   * it yields the exception it raised, if any.  The claim only reads the
   * table; the error is re-raised only when the consumer does not fail
   * silently.
   */
  method ConsumeOnce<E>(table: TaskTable, queue: string, process: Option<TaskRow> -> Option<E>,
                        failSilently: bool := FAIL_SILENTLY)
    returns (task: Option<TaskRow>, raised: Option<E>)
    ensures task == Select(table.rows, queue)
    ensures raised.Some? <==> !failSilently && process(task).Some?
    ensures raised.Some? ==> raised == process(task)
  {
    var error: Option<E> := None;
    task := Select(table.rows, queue);
    var outcome := process(task);
    if outcome.Some? {
      error := outcome;
    }
    raised := if !failSilently && error.Some? then error else None;
  }
}
