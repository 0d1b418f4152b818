# phpjq job-queue core, modelled in Dafny

phpjq is a small persistent job queue written in PHP. A dispatcher process
(`PHPJQ_Server`) inserts jobs into a SQLite file. A worker process
(`PHPJQ_Worker`) claims them inside exclusive transactions, runs a registered
handler on each one, writes the result back and, once the queue is empty,
frees its slot and exits. The dispatcher then receives each result and
deletes its row. All coordination goes through two tables: the jobs table and
an options table, which the model calls the registry. The registry holds the
configured worker count and the process id registered for each worker slot.

This project models that core:

- `wrappers.dfy` holds `Option`.
- `php_values.dfy` holds the PHP semantics the core depends on: truthiness,
  `is_numeric`, the `(int)` cast, the rendering of an int as a string, and
  `stripslashes`.
- `job_record.dfy` models the `PHPJQ_Job` constructor as a function that
  builds a datatype.
- `queue_store.dfy` models the SQLite file as the class `Database`: a map of
  job rows, the auto-increment counter, and the registry as a sequence of
  key/value entries. It also holds the pure functions on rows and registry
  entries, with their lemmas.
- `queue_server.dfy` models the class `Server`, the dispatcher.
- `queue_worker.dfy` models the class `Worker`, the worker.

Each PHP method of the core is one method of `Server` or `Worker`, and each
of them is one atomic step on the shared `Database`. Several of them run more
than one SQL statement in the source: `register_worker` runs the `is_running`
lookup, a DELETE and an INSERT; `set_worker_count` a DELETE and an INSERT;
`receive` a SELECT and a DELETE. The worker's `BEGIN EXCLUSIVE ... COMMIT`
blocks are atomic in the source too. The dispatcher's `Server` and the worker's
own `Server` point at the same `Database` object, just as both processes open
the same file.

A job row goes through four stages:

1. Unclaimed: worker -1, running 0.
2. Running: owned by worker `w`, running 1.
3. Completed: worker `w`, running 0.
4. Deleted by `receive`.

`Database.Valid` keeps five invariants: the counter is at least 1, ids lie
below the counter, `running` is 0 or 1, registry keys are distinct, and a file
without tables is empty. Registry keys stay distinct because every writer
deletes a key before it inserts it; this holds only for runs in which no two
writers interleave (see "## Left out").

The worker's claim picks any claimable row, because its query has no
`ORDER BY`. The model states this with a nondeterministic choice. `die` is
modelled as returning a `Halt` value. `job_failure` only calls `die`, so it
is the `JobFailed` exit of `Consume`.

Outside effects are parameters:

- `isLive` stands for the `ps <pid>` test.
- `fileExists` stands for `file_exists`.
- `pid` stands for `getmypid()`.
- `encode` and `decode` stand for `json_encode` and `json_decode`.
- User handlers are functions from `Value` to `Value`.

Launching a worker process is recorded in `Server.launched`, the list of
slots spawned so far.

Two behaviours of the code worth knowing:

- The code decodes a received payload and result, through `stripslashes`,
  from stored JSON. So a received result is not in general the handler's
  value: `StripSlashesBreaksEscapedQuote` shows JSON text that `stripslashes`
  corrupts.
- `is_complete` tests `running != 1`. This matches "not running" only because
  the store invariant keeps `running` at 0 or 1.

## Model

| member | source | states |
|---|---|---|
| `PhpValues.FalsyValues` | class/class-phpjq-job.php:11-15 | the values PHP's `if` treats as false are exactly null, false, 0, "", "0" and the empty array; objects are always true |
| `PhpValues.DecimalRoundTrip` | class/class-phpjq-server.php:253-258 | `is_numeric` accepts the decimal rendering of every int, and the `(int)` cast reads it back as the same int, so `free_worker("7")` frees the same slot as `free_worker(7)` |
| `PhpValues.IntToDecimalInjective` | class/class-phpjq-server.php:126 | distinct slot numbers give distinct strings in the `worker_pid_` key |
| `PhpValues.StripSlashesPlain` | class/class-phpjq-server.php:116 | `stripslashes` leaves text without backslashes unchanged |
| `PhpValues.StripSlashesBreaksEscapedQuote` | class/class-phpjq-server.php:116 | `stripslashes` drops the escape in JSON `"a\"b"`, so stored JSON with escapes does not decode as it was encoded |
| `JobRecord.NewJob` | class/class-phpjq-job.php:10-19 | method and data are stored as given; `id` and `return` are kept when truthy and are null otherwise |
| `JobRecord.ConstructedIsWellFormed` | class/class-phpjq-job.php:10-19 | the id and return of every constructed record are each null or truthy, never another falsy value |
| `JobRecord.FalsyReturnsCollapse` | class/class-phpjq-job.php:14-15 | any two falsy results give the same record, with a null return, so a job whose result decodes to 0, false, "" or [] is received with return null |
| `JobRecord.ShortFormHasNoReturn` | class/class-phpjq-job.php:7-15 | a record built with only method, data and id (as the claim builds it) has a null return, and a null id exactly when the id is falsy |
| `QueueStore.ClaimRemovesFromEligible` | class/class-phpjq-worker.php:69-82 | claiming a claimable row removes exactly that id from the claimable set, shrinking it by one |
| `QueueStore.CompletionKeepsEligible` | class/class-phpjq-worker.php:46-56 | the write-back by a real slot (not -1) on an unclaimable row leaves the claimable set unchanged |
| `QueueStore.ClaimThenCompleteIsCompleted` | class/class-phpjq-worker.php:49-53 | a row claimed and written back by a real slot is completed, holds the encoded result, and cannot be claimed again |
| `QueueStore.SentinelSlotReopensJob` | class/class-phpjq-worker.php:49-51 | claimed and written back by slot -1, a row becomes claimable again and never counts as completed |
| `QueueStore.Lookup` | class/class-phpjq-server.php:128-130 | the key lookup answers "no row" exactly when no entry has the key; otherwise it gives a value stored under that key |
| `QueueStore.LookupFindsEntry` | class/class-phpjq-server.php:128-135 | with distinct keys, the lookup returns the value of the one entry for the key |
| `QueueStore.RemoveKey` | class/class-phpjq-server.php:260-262 | deleting a key keeps exactly the entries with other keys: no entry has the key afterwards, other keys look up as before, and distinct keys stay distinct |
| `QueueStore.RemoveKeyIdempotent` | class/class-phpjq-server.php:251-265 | deleting a key twice is the same as deleting it once |
| `QueueStore.Put` | class/class-phpjq-server.php:234-241 | delete-then-insert leaves exactly one entry with the key (the last), holding the new value; other keys look up as before; distinct keys stay distinct |
| `QueueStore.PutIdempotent` | class/class-phpjq-server.php:234-241 | writing the same registration twice gives the same registry as writing it once |
| `QueueStore.WorkerKeysSeparate` | class/class-phpjq-server.php:221 | two slots share a `worker_pid_` key only if they are the same slot, and no slot key equals `worker_count` |
| `QueueStore.InitialRegistry` | class/class-phpjq-server.php:161 | the seeded options table has distinct keys, holds `worker_count = "1"`, and has no registration for any slot |
| `QueueStore.Database.Install` | class/class-phpjq-server.php:149-176 | installing gives an empty jobs table, the counter at 1, and the seeded options table |
| `QueueServer.ClampedCount` | class/class-phpjq-server.php:196-197 | the stored worker count is at least 1, equals the request when that is at least 1, and is 1 otherwise |
| `QueueServer.StoredCount` | class/class-phpjq-server.php:201-205 | after `set_worker_count` the `worker_count` entry holds the clamped count, and every slot's registration reads as before |
| `QueueServer.SlotIsLiveMeansLiveEntry` | class/class-phpjq-server.php:124-144 | with distinct keys, a slot counts as running exactly when some entry for its key holds a process id that is alive |
| `QueueServer.OtherSlotsUnaffected` | class/class-phpjq-server.php:221-241 | registering or freeing one slot does not change whether any other slot counts as running |
| `QueueServer.Server.constructor` | class/class-phpjq-server.php:44-59 | the tables are installed when missing, a truthy worker count is stored clamped, and the existing jobs are untouched |
| `QueueServer.Server.SetWorkerCount` | class/class-phpjq-server.php:194-209 | the field and the single `worker_count` entry are set to the clamped count; the jobs table is untouched |
| `QueueServer.Server.Dispatch` | class/class-phpjq-server.php:66-75 | adds exactly one new unclaimed, not-running row with a fresh id and the encoded data; returns that id; changes nothing else in the store; spawns slot 0 exactly when it is not live and the worker script exists |
| `QueueServer.Server.IsComplete` | class/class-phpjq-server.php:82-94 | true exactly when a row with the id exists and is completed (owned and not running); false for an unknown id |
| `QueueServer.Server.Receive` | class/class-phpjq-server.php:101-117 | succeeds exactly when the row is completed; it then deletes that row and only that row, and returns the record built from the decoded data and result; otherwise the store is unchanged |
| `QueueServer.Server.EnsureRunning` | class/class-phpjq-server.php:119-122 | launches a worker for slot 0, and only slot 0, exactly when slot 0 is not live and the worker script exists |
| `QueueServer.Server.IsRunning` | class/class-phpjq-server.php:124-144 | true exactly when the slot's registry entry holds a process id that is alive; false with no entry |
| `QueueServer.Server.SpawnWorker` | class/class-phpjq-server.php:178-192 | launches the slot exactly when a worker path is set and the file exists, and reports whether it did |
| `QueueServer.Server.RegisterWorker` | class/class-phpjq-server.php:216-244 | refuses, with the registry unchanged, a non-int id or a slot held by a live process; otherwise leaves exactly one entry for the slot holding this process id and leaves other keys alone |
| `QueueServer.Server.FreeWorker` | class/class-phpjq-server.php:251-265 | refuses a non-numeric id with the registry unchanged; otherwise removes every entry for the slot and leaves other entries alone |
| `QueueServer.DispatchThenReceive` | class/class-phpjq-server.php:66-117 | receiving right after dispatching, before any claim, answers false and leaves the job unclaimed |
| `QueueServer.ReceiveTwice` | class/class-phpjq-server.php:101-117 | receive is a consuming read: the second receive of the same id answers false |
| `QueueServer.FreeTwice` | class/class-phpjq-server.php:251-265 | freeing a slot a second time changes nothing |
| `QueueWorker.Worker.constructor` | class/class-phpjq-worker.php:10-13 | the slot id is the `(int)` cast of the argument; the handler table starts empty |
| `QueueWorker.Worker.Register` | class/class-phpjq-worker.php:126-128 | sets the handler for the name, overwriting any earlier one and leaving other names unchanged |
| `QueueWorker.Worker.Claim` | class/class-phpjq-worker.php:62-103 | answers false exactly when no row is claimable, and then leaves the jobs unchanged and frees the slot; otherwise returns a row that was claimable before the call, marks it running and owned by this slot, changes no other row, and returns it with its still-encoded data |
| `QueueWorker.Worker.JobSuccess` | class/class-phpjq-worker.php:46-56 | sets that row, and only that row, to not running, owned by this slot, with the encoded result; for a real slot (not -1) the row is then complete |
| `QueueWorker.Worker.Consume` | class/class-phpjq-worker.php:27-44 | terminates, because each pass shrinks the claimable set by one; it stops only (a) after a claim found nothing, with every job that was claimable finished by its handler and the slot freed, or (b) on a job with no handler, which is left running and owned by this slot with nothing written |
| `QueueWorker.Worker.Start` | class/class-phpjq-worker.php:105-124 | stops without consuming exactly when the slot is held by a live process, leaving the registry as the server object opened it; otherwise it registers this process id for the slot and consumes: on `JobFailed` the registration stays, on `Finished` it is removed again, and the jobs end as `Consume` states |
| `QueueWorker.ClaimsAreExclusive` | class/class-phpjq-worker.php:67-82 | two successive claims on one database, by any workers, never return the same job id |
| `QueueWorker.EchoRoundTrip` | worker-example.php:9-15 | on a fresh file: dispatch gets id 1; the example worker finishes; receive returns method "test", id 1 and the decoded result; a second receive answers false |

## Left out

- SQL text and the SQLite API: every statement is an operation on the abstract tables. Query failures other than "no row" are not modelled.
- Schema creation is reduced to its effect: empty tables and the seeded `worker_count = "1"`. The trailing comma in the jobs table's DDL would make SQLite reject the statement, but the model assumes the table exists. The unused `status` column is dropped.
- The race between the "options table exists" check and `install`, and every interleaving of statements from different processes, are out of scope. Each PHP method is one atomic step; the unisolated reads in `is_complete`, `receive` and `register_worker` are not modelled.
- QueueServer.Server.RegisterWorker: one atomic step, although the source runs the liveness check, the DELETE and the INSERT as separate statements outside a transaction. Two workers started for the same slot in quick succession (two dispatches each spawning slot 0) can both pass the check and both insert, leaving two `worker_pid_<n>` rows. The model does not capture that; `KeysDistinct` in `Database.Valid` holds only in runs without such interleaving.
- Integer width: PHP ints are 64 bits and SQLite row ids stop at 2^63-1, but `StringToInt`, `DigitsValue`, `IntToDecimal` and the id counter `Database.nextId` are unbounded. The `(int)` cast of a digit string beyond PHP_INT_MAX saturates in PHP; in the model it gives the larger value, so slot ids and job ids outside the 64-bit range are not modelled faithfully.
- The `ps` liveness test and shell spawning are foreign calls. They are the `isLive` oracle and the `launched` log. The process id the shell echoes after a spawn is discarded by the source and is not modelled.
- `json_encode` and `json_decode` are opaque parameters. No payload round trip is claimed. `json_encode` failing and returning false is not modelled.
- Floats are not part of `Value`.
- `is_numeric` and the `(int)` cast on strings are modelled only for strings made of an optional sign and digits. Leading whitespace, fractions and exponents are left out.
- SQLite's type affinity is left out: a job id is matched only when it is an int.
- Handler exceptions and non-callable handlers are left out: handlers are total functions.
- `validate_request`, the command-line entry point and the text passed to `die` are process plumbing. `die` is a returned `Halt`.
- The `config` snapshot read by the constructor is never used, so it is left out.
- QueueWorker.Worker.Consume: requires a slot id other than -1. With slot -1, the write-back makes a job claimable again (`SentinelSlotReopensJob`), so the source's loop need not terminate, and that cannot be written as a terminating method.
- QueueWorker.Worker.Start: requires a slot id other than -1, because it runs `Consume`.
