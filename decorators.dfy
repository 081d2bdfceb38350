/**
 * The `task` and `atask` decorators of `decorators.py`.  Decorating binds a
 * function to its queue and restart settings; `schedule` inserts one new
 * CREATED row for a call; the returned `wrapper` calls the function itself.
 */
module Decorators {
  import opened Wrappers
  import opened Codec
  import opened Models
  import opened Tables
  import opened Selection
  import FuncPath

  /** Fallbacks of the settings `DEFAULT_QUEUE`, `MAX_RESTARTS` and `RESTART_DELAY`. */
  const DEFAULT_QUEUE: string := "default"
  const MAX_RESTARTS: int := 0
  const RESTART_DELAY: int := 120

  /** `task` wraps a plain function, `atask` a coroutine function. */
  datatype Mode = Sync | Async

  /** What `inspect` reveals of a function: the file of its module and its qualified name. */
  datatype TaskFunc = TaskFunc(moduleFile: string, qualname: string)

  /** A function together with the arguments its decorator was given. */
  datatype Decorated = Decorated(mode: Mode, func: TaskFunc, queue: string, maxRestarts: int, restartDelay: int)

  /** `@task(queue, max_restarts, restart_delay)` applied to `func`. */
  function Task(func: TaskFunc, queue: string := DEFAULT_QUEUE, maxRestarts: int := MAX_RESTARTS,
                restartDelay: int := RESTART_DELAY): Decorated
  {
    Decorated(Sync, func, queue, maxRestarts, restartDelay)
  }

  /** `@atask(queue, max_restarts, restart_delay)` applied to `func`. */
  function ATask(func: TaskFunc, queue: string := DEFAULT_QUEUE, maxRestarts: int := MAX_RESTARTS,
                 restartDelay: int := RESTART_DELAY): Decorated
  {
    Decorated(Async, func, queue, maxRestarts, restartDelay)
  }

  /** Omitted decorator arguments fall back to "default", 0 restarts and a 120 second delay. */
  lemma DecoratorDefaults(func: TaskFunc)
    ensures Task(func).queue == "default" && Task(func).maxRestarts == 0 && Task(func).restartDelay == 120
    ensures ATask(func).queue == "default" && ATask(func).maxRestarts == 0 && ATask(func).restartDelay == 120
  {
  }

  /** The object that is serialized as the call's parameters: `{"args": args, "kwargs": kwargs}`. */
  function CallParams(args: seq<Value>, kwargs: seq<(string, Value)>): Value {
    VDict([("args", VList(args)), ("kwargs", VDict(kwargs))])
  }

  /**
   * The row `schedule(*args, **kwargs)` creates, given the id the table
   * assigns, the creation time and the project's base dir.
   */
  function ScheduledRow(d: Decorated, id: int, now: Time, baseDir: string,
                        args: seq<Value>, kwargs: seq<(string, Value)>, c: Codec): (r: TaskRow)
    ensures r.id == id && r.created == now
    ensures r.status == Created && r.queue == d.queue
    ensures r.restartDelay == d.restartDelay && r.maxRestarts == d.maxRestarts
    ensures r.restartAttempts == 0
    ensures r.notBefore.None? && r.completed.None? && r.failed.None? && r.rawReturned.None?
    ensures r.funcName == FuncPath.GetFuncPath(d.func.moduleFile, baseDir, d.func.qualname)
    ensures RoundTrips(c) ==> r.Params(c) == CallParams(args, kwargs)
  {
    var raw := c.encode(CallParams(args, kwargs));
    var r := TaskRow(
      id := id,
      funcName := FuncPath.GetFuncPath(d.func.moduleFile, baseDir, d.func.qualname),
      queue := d.queue,
      status := Created,
      created := now,
      completed := None,
      failed := None,
      notBefore := None,
      rawParams := Some(raw),
      rawReturned := None,
      restartAttempts := 0,
      restartDelay := d.restartDelay,
      maxRestarts := d.maxRestarts);
    assert RoundTrips(c) ==> r.Params(c) == CallParams(args, kwargs) by {
      if RoundTrips(c) {
        DecodeEncodedField(CallParams(args, kwargs), c);
      }
    }
    r
  }

  /** `task` and `atask` schedule identical rows for identical inputs. */
  lemma ScheduleIgnoresMode(d: Decorated, id: int, now: Time, baseDir: string,
                            args: seq<Value>, kwargs: seq<(string, Value)>, c: Codec)
    ensures ScheduledRow(d.(mode := Sync), id, now, baseDir, args, kwargs, c) ==
            ScheduledRow(d.(mode := Async), id, now, baseDir, args, kwargs, c)
  {
  }

  /** `schedule`: `TaskModel.objects.create(...)` adds exactly one row, with the next id. */
  method Schedule(table: TaskTable, d: Decorated, baseDir: string,
                  args: seq<Value>, kwargs: seq<(string, Value)>, now: Time, c: Codec)
    returns (t: TaskRow)
    requires table.Valid()
    modifies table
    ensures table.Valid()
    ensures t == ScheduledRow(d, old(table.nextId), now, baseDir, args, kwargs, c)
    ensures table.rows == old(table.rows) + [t]
    ensures table.nextId == old(table.nextId) + 1
  {
    t := ScheduledRow(d, table.nextId, now, baseDir, args, kwargs, c);
    table.rows := table.rows + [t];
    table.nextId := table.nextId + 1;
  }

  /**
   * A scheduled row can be claimed from its queue at once, and it is the row
   * claimed when no other CREATED row waits in that queue.
   */
  lemma ScheduledRowIsClaimable(rows: seq<TaskRow>, t: TaskRow)
    requires t.status == Created && t.notBefore.None?
    ensures Select(rows + [t], t.queue).Some?
    ensures (forall u :: u in rows ==> !Eligible(u, t.queue)) ==> Select(rows + [t], t.queue) == Some(t)
  {
    assert t in rows + [t];
    if forall u :: u in rows ==> !Eligible(u, t.queue) {
      var r := Select(rows + [t], t.queue).value;
      assert r in rows || r == t;
    }
  }

  /** The decorated function as `wrapper`: it returns exactly what the function returns. */
  function Wrapper<A(!new), R>(f: A -> R): (w: A -> R)
    ensures forall a :: w(a) == f(a)
  {
    a => f(a)
  }
}
