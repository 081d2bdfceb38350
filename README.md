# django_simple_tasks: task records, claiming and bulk updates

This project models the core of `django_simple_tasks`, a task queue backed by a
database table. Callers decorate functions with `task` or `atask`. Calling
`schedule` on a decorated function inserts a CREATED row into the task table.
Consumers repeatedly claim the first CREATED row of their queue and hand it to
a processor. The processor uses the row's restart bookkeeping
(`can_be_restarted`, `setup_for_restart`) to retry a failed call after a delay,
or it marks the row FAILED or COMPLETED. Two administrative commands delete
the FAILED rows or make them consumable again.

Modules:

- `Models` (`models.dfy`): the row value `TaskRow` with its status, timestamps
  and restart counters, the pure transitions `AsFailed`, `AsCompleted` and
  `ForRestart`, and the class `TaskModel`, whose methods update the fields of a
  model instance in place. Time is whole seconds, passed in as `now`.
- `Codec` (`codec.dfy`): the pickle+base64 payload codec as an abstract
  encode/decode pair. Its round trip is the precondition `RoundTrips`.
- `FuncPath` (`func_path.dfy`): `get_func_path`, built from the string
  operations it chains together. It keeps the `rstrip(".py")` behaviour as
  written: a set of characters is stripped, not a suffix. So a module file
  `app/happy.py` gives the module name `app.ha` (`RStripEatsModuleTail`).
- `Selection` (`selection.dfy`): the claim query as a pure function of the
  table, with the ordering written out as an explicit predicate.
- `Consumers` (`consumers.dfy`): one iteration of the consumer loop and its
  error policy.
- `Decorators` (`decorators.dfy`): the decorator arguments and their defaults,
  the row `schedule` creates, and `schedule` as an insertion into the table.
- `Tables` and `Commands` (`tables.dfy`, `commands.dfy`): the task table as a
  class with a `seq` of rows and the next auto-increment id, and the two
  administrative commands as in-place updates of it.
- `TaskDict` (`task_dict.dfy`): `task_as_dict`, including the decimal
  rendering of the restart delay and the parser that reads it back.

In three points this code differs from an eta-aware queue that claims only due
rows, counts `retry_*` attempts and clears a reset row's failure time. The model
follows this code:

- The claim has no "due now" filter. An eta in the future does not stop a row
  from being claimed; only `is_postponed` sees it (`FutureEtaStillClaimed`).
- The fields are named `restart_*`, not `retry_*`.
- Marking FAILED rows consumable leaves their `failed` timestamp set.

In one point the model departs from the code: the claim order. The comment at
`_private/consumers.py:24` and the tests ask for rows without an eta first. The
query as written sorts them last. The model claims in the documented order, and
records the literal order under "## Findings".

## Model

| member | source | states |
|---|---|---|
| Models.TaskRow.CanBeRestarted | src/django_simple_tasks/models.py:59-60 | retries are enabled (`max_restarts > 0`) and fewer than `max_restarts` attempts have been made; its properties are stated by `NoRestartWhenDisabled`, `GuardedRestartKeepsBound` and `FreshRecordRestartsAtMostMax` |
| Models.TaskRow.IsPostponed | src/django_simple_tasks/models.py:62-63 | the row has an eta and `now` is before it; a row without an eta is never postponed. Its properties are stated by `RestartPostpones` and `FutureEtaStillClaimed` |
| Models.TaskRow.Params | src/django_simple_tasks/models.py:37-42 | a null or empty `raw_params` reads as `None`; anything else is decoded |
| Models.TaskRow.Returned | src/django_simple_tasks/models.py:44-49 | a null or empty `raw_returned` reads as `None`; anything else is decoded |
| Models.TaskRow.AsFailed | src/django_simple_tasks/models.py:51-53 | status becomes FAILED and `failed` becomes `now`; `completed`, `not_before`, `restart_attempts` and every job field stay as they were |
| Models.TaskRow.AsCompleted | src/django_simple_tasks/models.py:55-57 | status becomes COMPLETED and `completed` becomes `now`; `restart_attempts` and `not_before` are kept, so success preserves the retry history |
| Models.TaskRow.ForRestart | src/django_simple_tasks/models.py:65-67 | `restart_attempts` goes up by exactly one and `not_before` becomes `now + restart_delay`; status and every other field are unchanged |
| Models.TaskModel.SetAsFailed | src/django_simple_tasks/models.py:51-53 | the instance's fields afterwards hold `AsFailed(now)` of the fields before |
| Models.TaskModel.SetAsCompleted | src/django_simple_tasks/models.py:55-57 | the instance's fields afterwards hold `AsCompleted(now)` of the fields before |
| Models.TaskModel.SetupForRestart | src/django_simple_tasks/models.py:65-67 | the instance's fields afterwards hold `ForRestart(now)` of the fields before |
| Models.TaskModel.constructor | src/django_simple_tasks/models.py:15-30 | an instance loaded from a row holds exactly that row's fields |
| Models.NoRestartWhenDisabled | src/django_simple_tasks/models.py:59-60 | with `max_restarts <= 0`, `can_be_restarted` never holds |
| Models.RestartPostpones | src/django_simple_tasks/models.py:62-67 | after a restart with a positive delay, the task is postponed at the failure time and not postponed at any time from `now + restart_delay` on |
| Models.GuardedRestartKeepsBound | src/django_simple_tasks/models.py:59-66 | a restart taken only while `can_be_restarted` holds keeps `0 <= restart_attempts <= max_restarts` |
| Models.GuardedRunBounded | src/django_simple_tasks/models.py:59-67 | a run of guarded restarts adds one attempt per restart and never passes `max_restarts`; it leaves the job fields and the status unchanged, and the eta ends as the last failure time plus the delay (linear backoff) |
| Models.FreshRecordRestartsAtMostMax | src/django_simple_tasks/models.py:59-67 | a fresh record allows at most `max_restarts` restarts, and none when retries are disabled; after exactly `max_restarts` restarts no further restart is allowed |
| Codec.DecodeField | src/django_simple_tasks/models.py:37-49 | `params`/`returned`: a null or empty raw field reads as `None`, anything else is decoded |
| Codec.DecodeEncodedField | src/django_simple_tasks/_private/utils.py:13-32 | under the codec's round trip, a field holding an encoding reads back as the encoded value |
| FuncPath.SlashesToDots | src/django_simple_tasks/_private/utils.py:42 | each `/` becomes `.`, other characters and the length are kept, and no `/` remains |
| FuncPath.RStrip | src/django_simple_tasks/_private/utils.py:42 | `rstrip(".py")` gives a prefix of its input that does not end in `.`, `p` or `y`; every character it removed is one of those three |
| FuncPath.RemoveAll | src/django_simple_tasks/_private/utils.py:43 | `replace(base_dir, "")` never lengthens the string and only keeps characters of its input; an empty pattern leaves the string unchanged |
| FuncPath.DropFirst | src/django_simple_tasks/_private/utils.py:43 | `[1:]` drops exactly the first character, and an empty string stays empty |
| FuncPath.ModuleName | src/django_simple_tasks/_private/utils.py:40-43 | the module part is strictly shorter than the module file path, since `[1:]` always drops a character |
| FuncPath.GetFuncPath | src/django_simple_tasks/_private/utils.py:35-46 | the result is the module name, a dot and the qualified name, so it ends with `"." + qualname`; the module name contains no `/` |
| FuncPath.ModuleHasNoSlash | src/django_simple_tasks/_private/utils.py:42-43 | no `/` of the module file survives into the module name |
| FuncPath.NoOccurrenceUnchanged | src/django_simple_tasks/_private/utils.py:43 | removing a pattern that occurs nowhere leaves the string unchanged |
| FuncPath.BaseDirPrefixRemoved | src/django_simple_tasks/_private/utils.py:43 | a base dir that prefixes the path and occurs nowhere after it is removed, and only it |
| FuncPath.FuncPathUnderBaseDir | src/django_simple_tasks/_private/utils.py:40-46 | for a module under the base dir, the stored name is the rest of the dotted path without its leading dot, a dot, and the qualified name |
| FuncPath.TestsTasksAdd | src/django_simple_tasks/_private/utils.py:40-46 | module file `/r/tests/tasks.py` under base dir `/r` with qualified name `add` gives `tests.tasks.add` |
| FuncPath.TestsTasksModule | src/django_simple_tasks/_private/utils.py:40-43 | the module part of `/r/tests/tasks.py` under `/r` is `tests.tasks` |
| FuncPath.HappyModule | src/django_simple_tasks/_private/utils.py:40-43 | the module part of `/r/app/happy.py` under `/r` is `app.ha` |
| FuncPath.RStripEatsModuleTail | src/django_simple_tasks/_private/utils.py:42 | module file `/r/app/happy.py` gives `app.ha.f`: the trailing `p` and `y` of the module name are stripped as well |
| Selection.Precedes | src/django_simple_tasks/_private/consumers.py:27 | the ordering key: whether the row has an eta (placed first or last), then the eta; the id breaks ties, as the tests expect |
| Selection.Eligible | src/django_simple_tasks/_private/consumers.py:27 | the filter: the requested queue and status CREATED |
| Selection.SelectBy | src/django_simple_tasks/_private/consumers.py:25-28 | the result is `None` exactly when no CREATED row of the queue exists; otherwise it is a CREATED row of the queue taken from the table, and no qualifying row precedes it under the ordering key |
| Selection.Select | src/django_simple_tasks/_private/consumers.py:24-28 | in the documented order, a row with an eta is claimed only when no qualifying row is without one |
| Selection.PrecedesStrictOrder | src/django_simple_tasks/_private/consumers.py:27 | the ordering key is irreflexive and transitive, whichever way rows without an eta are placed |
| Selection.PrecedesTotal | src/django_simple_tasks/_private/consumers.py:27 | with the id tie-break the tests expect, any two rows with different ids are ordered one way or the other |
| Selection.NullEtaRowsFirst | src/django_simple_tasks/_private/consumers.py:24-27 | if a qualifying row without an eta exists, the claimed row has no eta and has the smallest id among such rows |
| Selection.DatedRowsByEta | src/django_simple_tasks/_private/consumers.py:24-27 | a claimed row with an eta means every qualifying row has one; the claimed row's eta is the earliest, and among rows with that eta it has the smallest id |
| Selection.SelectIsLeast | src/django_simple_tasks/_private/consumers.py:25-28 | with distinct ids, the claimed row precedes every other qualifying row under the ordering key plus the id tie-break, so the model's claim is uniquely determined |
| Selection.FutureEtaStillClaimed | src/django_simple_tasks/_private/consumers.py:25-28 | in any table, a qualifying row that is postponed at `now` is still claimed whenever it comes first in the documented order, for instance when it is the only qualifying row of its queue |
| Selection.AsWrittenClaimsDatedRowFirst | src/django_simple_tasks/_private/consumers.py:26-27 | with the literal ascending sort on `is_null`, a row with an eta is claimed before an earlier row without one, which the documented order would claim |
| Consumers.ConsumeOnce | src/django_simple_tasks/_private/consumers.py:20-36 | the claimed row is the documented selection over the table, and the claim does not change the table; the processor's error is re-raised exactly when the consumer does not fail silently |
| Decorators.Task | src/django_simple_tasks/decorators.py:9 | `@task` binds a plain function to its queue, restart limit and delay; the defaults are stated by `DecoratorDefaults` |
| Decorators.ATask | src/django_simple_tasks/decorators.py:32 | `@atask` binds a coroutine function to its queue, restart limit and delay; the defaults are stated by `DecoratorDefaults` |
| Decorators.CallParams | src/django_simple_tasks/decorators.py:13 | the object `{"args": args, "kwargs": kwargs}` that `schedule` serializes; the round trip is stated by `ScheduledRow` |
| Decorators.DecoratorDefaults | src/django_simple_tasks/_private/consts.py:4-6 | omitted decorator arguments give queue "default", 0 restarts and a 120 second delay, for `task` and `atask` alike |
| Decorators.ScheduledRow | src/django_simple_tasks/decorators.py:11-22 | the new row is CREATED with the decorator's queue, delay and restart limit, zero attempts, no eta and no terminal timestamps; its function name is `get_func_path` of the function, and under the codec round trip its params read back as `{"args": args, "kwargs": kwargs}` |
| Decorators.ScheduleIgnoresMode | src/django_simple_tasks/decorators.py:11-45 | `task` and `atask` schedule identical rows for identical inputs |
| Decorators.Schedule | src/django_simple_tasks/decorators.py:15-22 | exactly one row is appended, with the next id; all existing rows are unchanged and the id order of the table is kept |
| Decorators.ScheduledRowIsClaimable | src/django_simple_tasks/decorators.py:15-22 | a freshly scheduled row makes its queue claimable, and it is the claimed row when no other CREATED row waits in that queue |
| Decorators.Wrapper | src/django_simple_tasks/decorators.py:25-28 | the wrapper returns exactly what the wrapped function returns, for every argument |
| Tables.TaskTable.constructor | src/django_simple_tasks/models.py:15-30 | the task table starts empty, and the first row gets id 1 |
| Commands.FailedIds | src/django_simple_tasks/management/commands/detete_failed_tasks.py:11 | the logged list has one id per FAILED row, and it holds exactly the ids of the FAILED rows |
| Commands.WithoutFailed | src/django_simple_tasks/management/commands/detete_failed_tasks.py:12 | a row remains, unchanged, exactly when it was not FAILED; the count drops by the number of FAILED rows |
| Commands.WithoutFailedCounts | src/django_simple_tasks/management/commands/detete_failed_tasks.py:12 | the numbers of CREATED and COMPLETED rows are unchanged by the delete |
| Commands.WithoutFailedKeepsIdOrder | src/django_simple_tasks/management/commands/detete_failed_tasks.py:12 | the remaining rows keep their increasing id order |
| Commands.DeleteFailedIdempotent | src/django_simple_tasks/management/commands/detete_failed_tasks.py:11-12 | a second run finds no FAILED id and changes nothing |
| Commands.DeleteFailedTasks | src/django_simple_tasks/management/commands/detete_failed_tasks.py:10-14 | the returned ids are those of the FAILED rows before the delete; the table afterwards is the table without its FAILED rows, and the id counter is unchanged |
| Commands.Reopen | src/django_simple_tasks/management/commands/mark_failed_tasks_consumable.py:11 | a FAILED row becomes CREATED with zero attempts, with its job fields and eta kept; any other row is unchanged; the result is never FAILED |
| Commands.Reopened | src/django_simple_tasks/management/commands/mark_failed_tasks_consumable.py:11 | the row count and every id are kept, non-FAILED rows are unchanged, and each FAILED row becomes CREATED with zero attempts; its eta, timestamps, payload and restart settings are untouched, and no row is FAILED afterwards |
| Commands.ReopenedCounts | src/django_simple_tasks/management/commands/mark_failed_tasks_consumable.py:11 | no FAILED row is left; the CREATED count afterwards is the CREATED count plus the FAILED count before, and the COMPLETED count is unchanged |
| Commands.ReopenedIdempotent | src/django_simple_tasks/management/commands/mark_failed_tasks_consumable.py:11 | a second run changes nothing |
| Commands.MarkFailedTasksConsumable | src/django_simple_tasks/management/commands/mark_failed_tasks_consumable.py:10-12 | the table afterwards is the bulk update of the table before, and it keeps its id order and id counter |
| TaskDict.NatToDecimal | src/django_simple_tasks/utils.py:12 | the rendering of a natural number is a non-empty string of digits without a leading zero |
| TaskDict.IntToDecimal | src/django_simple_tasks/utils.py:12 | `str(n)`: non-empty, starts with `-` exactly when `n` is negative, and otherwise holds the digits of the magnitude |
| TaskDict.DelayText | src/django_simple_tasks/utils.py:12 | `f"{restart_delay}s"`: the decimal text of the delay followed by `s` |
| TaskDict.IntDecimalRoundTrip | src/django_simple_tasks/utils.py:12 | parsing the decimal text of any integer, negative ones included, gives the integer back |
| TaskDict.DelayTextRoundTrip | src/django_simple_tasks/utils.py:12 | the delay text ends in `s` and the part before it reads back as the delay |
| TaskDict.TaskAsDict | src/django_simple_tasks/utils.py:4-14 | exactly the eight keys are present; `queue`, `completed`, `failed` and the raw payloads are omitted |
| TaskDict.TaskAsDictValues | src/django_simple_tasks/utils.py:4-14 | every value except the delay is copied from the row, and the delay is text that reads back as the row's delay |

## Findings

| source | as written | input that shows it | evidently intended | confidence | as-written member | corrected member |
|---|---|---|---|---|---|---|
| src/django_simple_tasks/_private/consumers.py:26-27 | `order_by('is_null', 'not_before')` sorts the Boolean `is_null` ascending, so rows WITH an eta (`False`) come before rows without one | two CREATED rows of one queue: row 1 with an eta, row 2 without; row 1 is claimed | rows without an eta first, in id order, as the comment at line 24 and tests/tests/test_db.py:41-64 say | not executed | Selection.AsWrittenClaimsDatedRowFirst | Selection.NullEtaRowsFirst |

The rest of the model claims in the documented order (`Selection.Select`).
`Selection.SelectBy` with `NullsLast` puts rows in the query's literal order on
`is_null` and `not_before`. The id tie-break is the model's own (see "## Left out").

## Left out

- Pickle and base64 are not modelled. The codec is an abstract pair of total functions, and its round trip is a precondition (`Codec.RoundTrips`). Errors from encoding or decoding are not modelled.
- `is_async` and the `await` in the `atask` wrapper are not modelled; `Decorators.Wrapper` stands for both wrappers.
- The polling loop itself is left out: the endless `while True`, `time.sleep(CONSUMER_NAP_TIME)`, `transaction.atomic` and the row lock of `select_for_update`. Mutual exclusion between consumers is a guarantee of the database.
- `_private/processors.py` (`task_processor`) is not part of this model. `Consumers.ConsumeOnce` takes the processor as a parameter that returns the exception it raised, if any. What the processor does to the claimed row is not modelled, and neither is the rule it uses to pick between restart and failure.
- Only the fallback values of the settings are modelled (`DEFAULT_QUEUE`, `MAX_RESTARTS`, `RESTART_DELAY`, `FAIL_SILENTLY`). `CONSUMER_NAP_TIME` is a float sleep interval and is left out.
- The `consume_tasks` command, the logging calls and the `func.schedule = schedule` attribute assignment are left out. The delete command's logged ids are modelled as a list of integers; Django's `values_list("pk")` yields one-element tuples.
- Real datetimes and time zones are left out; time is whole seconds.
- The database's 32-bit bound on `IntegerField` columns is not modelled; counters and delays are unbounded integers.
- Consumers.ConsumeOnce: the processor's own changes to the table are not modelled, so the contract only says the claim reads the table.
- Consumers.ConsumeOnce: the claim uses the documented order (`Selection.Select`), not the query's literal order. On the input of the "## Findings" row it claims row 2, where `_private/consumers.py:25-28` as written claims row 1.
- Consumers.ConsumeOnce: every failure of the processor is treated as caught. `except Exception` at `_private/consumers.py:32` does not catch `KeyboardInterrupt` or `SystemExit`; those escape whatever `FAIL_SILENTLY` says, and the model has no such exceptions.
- Selection.SelectBy: the query orders by `is_null` and `not_before` only, so the database decides between rows whose keys are equal. The model breaks such ties by id, as `tests/tests/test_db.py:41-64` expect. `Selection.PrecedesTotal` and `Selection.SelectIsLeast` state properties of that model order, not of the query.
- FuncPath.GetFuncPath: `inspect.getmodule(func)` returning `None`, or a module without `__file__`, makes `get_func_path` raise (`_private/utils.py:39,42`). The model takes the module file as a given string, so these errors are not modelled.
- The `max_length=400` bound on `func_name`, `queue` and `status` (`models.py:16-18`) is not modelled; the model accepts strings of any length.
- FuncPath.RemoveAll: its contract does not describe the result completely. The function itself follows Python's left-to-right, non-overlapping replacement, and the lemmas pin down the cases where the pattern occurs nowhere or only as a prefix.
