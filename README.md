# Job queue and role check of an auth/CRUD REST backend, in Dafny

This project models two pieces of a REST backend with user accounts, roles and mail jobs.

The first piece is its job-queue helper (`src/helpers/queue.ts`). It has three classes:

- **`VanillaQueue`** is an in-memory driver. It keeps one list per queue name and an active queue name. It starts on `default`, with `default` and `deadletter` present. `add` pushes at the tail and `pop` shifts the head, so it is first-in first-out. `process` pops once and runs a processor. If the processor throws, `process` appends `{ queue, data }` to `deadletter`.
- **`DatabaseQueue`** is a table-backed driver. It works over rows `{ id, queue, item, formerQueue? }`. `pop` selects the row of the active queue with the highest id and then deletes it, so this driver is last-in first-out. When the processor fails, `process` inserts a dead-letter row that remembers the queue the item came from.
- **`QueueImpl`** is a facade that holds one driver. `connection('vanilla' | 'default')` installs a fresh, empty in-memory driver. `connection('database')` installs a table-backed driver over the same table. Any other name changes nothing. Every other method forwards to the driver.

The second piece is the `auth` middleware (`src/middlewares/auth.middleware.ts`). It works in three steps:

1. It rejects a request that has no token, or whose token does not verify.
2. It stores the decoded token in `data.auth`.
3. It scans the user's roles in order, and the first role that decides wins.

Files:

- `optional.dfy`: the `Option` type.
- `queue_values.dfy`: the values that travel through queues (payloads, `null`, `undefined`, dead-letter records), the queue-name constants, and the processor type.
- `vanilla_queue.dfy`: the in-memory driver. It has two parts:
  - functions on its abstract state, with the lemmas proved about them;
  - the `VanillaQueue` class. Its methods update `queueName` and `queues` in place and are proved to follow those functions.
- `database_queue.dfy`: the table-backed driver. It has three parts:
  - the queries as functions on rows: insert, newest row of a queue, delete by id and queue, count;
  - the lemmas about those functions;
  - a `JobsTable` class that stands for the database, and the `DatabaseQueue` class, which issues those queries one step at a time.
- `queue_impl.dfy`: the `QueueImpl` facade, its forwarding methods, and two client scenarios about fetching a job's queue again.
- `auth_middleware.dfy`: `methodToAction`, the role scan as a recursive function, what is proved about that scan, and `handle` as a method. The method keeps the source's flag-and-`break` loop and is proved equal to the function.

Modelling choices:

- JavaScript's `null` and `undefined` stay distinct (`Value.Null`, `Value.Undefined`). The two drivers differ here:
  - The in-memory `pop` and `peek` return `null` on an empty queue.
  - The database `pop` returns `undefined` and the database `peek` returns `null`.
  - `process` hands that value to the processor as it is.
- A processor is a total function from the popped value to a boolean. `true` means it returned; `false` means it threw or rejected.
- The database is a `JobsTable` object. It holds the rows in insertion order and the counter that ids come from. The facade is built over one table and keeps it. So a new table-backed driver sees the rows an earlier one left, while a new in-memory driver starts empty.
- The database driver reads its queue name and dead-letter name from a database configuration entry. That file is not part of this model. The names used are those of the `database` connection in `src/config/queue.ts`: `default` and `deadletter`.
- Token verification is a parameter `verify: string -> Option<Claims>`. Role permissions are a map from role name to route name to the list of actions for that route. A key missing from the map stands for a configuration value that is `undefined`.

## Model

| member | source | states |
|---|---|---|
| `VanillaQueues.VanillaQueue.constructor` | src/helpers/queue.ts:5-15 | A new driver is on `default`, with `default` and `deadletter` present and empty, and its invariant holds. |
| `VanillaQueues.VanillaQueue.Truncate` | src/helpers/queue.ts:17-19 | The loop over the keys leaves every existing list empty. It keeps the set of names and the active name. |
| `VanillaQueues.VanillaQueue.Queue` | src/helpers/queue.ts:21-29 | Sets the active name. Adds an empty list only when the name is missing. The invariant "the active name is a key" is kept. |
| `VanillaQueues.VanillaQueue.Add` | src/helpers/queue.ts:31-35 | The item is appended to the tail of the active list. Nothing else changes. |
| `VanillaQueues.VanillaQueue.Pop` | src/helpers/queue.ts:37-43 | Returns `null` and changes nothing on an empty active list. Otherwise it returns the head and removes it. |
| `VanillaQueues.VanillaQueue.Peek` | src/helpers/queue.ts:45-51 | Returns exactly what the next `Pop` would return, or `null` on an empty list. It changes nothing. |
| `VanillaQueues.VanillaQueue.Length` | src/helpers/queue.ts:53-55 | The result is the size of the active list. |
| `VanillaQueues.VanillaQueue.IsEmpty` | src/helpers/queue.ts:57-59 | True iff the active list is empty, which is when `Length` is 0. |
| `VanillaQueues.VanillaQueue.Process` | src/helpers/queue.ts:61-74 | Pops once and calls the processor with the popped value. If the processor throws, appends `{ queue: active, data }` to `deadletter`. |
| `VanillaQueues.OperationsKeepWellFormed` | src/helpers/queue.ts:7-29 | Every operation keeps three names as keys of the map: the active name, `default` and `deadletter`. |
| `VanillaQueues.SelectIsIdempotentAndLocal` | src/helpers/queue.ts:21-29 | `queue(name)` leaves every existing list untouched and adds `name` as an empty list only if it was absent. Calling it twice equals calling it once. |
| `VanillaQueues.AddAndPopAreLocal` | src/helpers/queue.ts:31-43 | `add` and `pop` change the active list only. Every other queue, the set of names and the active name stay the same. |
| `VanillaQueues.PeekIsNextPop` | src/helpers/queue.ts:37-51 | `peek` equals the value of the next `pop`. On an empty list `pop` returns `null` and leaves the state unchanged. Otherwise `pop` returns the head and leaves the tail. |
| `VanillaQueues.TruncateEmptiesEveryQueue` | src/helpers/queue.ts:17-29 | After `truncate` the names and the active name are kept. Any queue selected afterwards, `deadletter` included, is empty. |
| `VanillaQueues.AddedAllAppends` | src/helpers/queue.ts:31-35 | A run of `add` calls appends its items, in order, to the active list. |
| `VanillaQueues.PoppedManyTakesPrefix` | src/helpers/queue.ts:37-43 | `n` pops on a list of at least `n` items return its first `n` items, oldest first, and leave the rest. |
| `VanillaQueues.FifoOrder` | src/helpers/queue.ts:31-43 | FIFO order. Adding items and then popping the whole queue returns the old contents and then the items, in insertion order. On an empty queue, `n` adds followed by `n` pops return the items and restore the exact state. |
| `VanillaQueues.ProcessRoutesFailureToDeadLetter` | src/helpers/queue.ts:61-74 | `process` pops exactly once and never re-raises. Every queue but `deadletter` ends as that pop left it. `deadletter` gains exactly one record, carrying the origin queue name and the popped value, iff the processor failed. |
| `VanillaQueues.ProcessOnEmptyQueue` | src/helpers/queue.ts:61-74 | On an empty queue the processor is still called, with `null`. A failure dead-letters a record whose data is `null`. |
| `DatabaseQueues.Inserted` | src/helpers/queue.ts:113-120 | An insert appends one row under the next id. It keeps ids increasing and below the counter. |
| `DatabaseQueues.Newest` | src/helpers/queue.ts:123-126 | The newest-row select. It finds nothing iff no row is tagged with the queue. Otherwise it finds a row of that queue whose id is at least that of every other row of that queue. |
| `DatabaseQueues.CountZeroIff` | src/helpers/queue.ts:153-155 | A queue's count is 0 iff no row is tagged with it. |
| `DatabaseQueues.DeleteRemovesOneRow` | src/helpers/queue.ts:132-135 | With unique ids, deleting by a row's id and queue removes that row and only it. The other rows keep their order. |
| `DatabaseQueues.DeleteKeepsWellFormed` | src/helpers/queue.ts:132-135 | A delete keeps a subsequence of the rows, so ids stay increasing and below the counter. |
| `DatabaseQueues.PopRemovesNewestRow` | src/helpers/queue.ts:122-151 | `pop` removes exactly the row with the largest id among the active queue's rows and returns its item. All other rows are untouched. `peek` returns the same item. With no such row, `pop` gives `undefined`, `peek` gives `null`, and the table is unchanged. |
| `DatabaseQueues.PopLowersLengthByOne` | src/helpers/queue.ts:122-155 | On a non-empty queue, `pop` lowers that queue's `length` by one and leaves every other queue's `length` unchanged. |
| `DatabaseQueues.AddBecomesNewest` | src/helpers/queue.ts:113-138 | `add` raises the active queue's count by one and leaves other queues' counts unchanged. The next `pop` returns the item just added and restores the previous rows. |
| `DatabaseQueues.LifoOrder` | src/helpers/queue.ts:113-138 | LIFO order. After adding items to a queue, as many pops return them newest first and leave exactly the rows the table held before. |
| `DatabaseQueues.ReversedIndex` | src/helpers/queue.ts:122-138 | The `k`-th item that `LifoOrder`'s pops return is the `k`-th added item counted from the end, so the newest comes first. |
| `DatabaseQueues.ProcessRoutesFailureToDeadLetter` | src/helpers/queue.ts:157-174 | `process` pops once. On success nothing else changes. On failure exactly one row `{ queue: deadletter, formerQueue: active, item: data }` is appended, so the dead-letter count rises by one. |
| `DatabaseQueues.ProcessOnEmptyQueue` | src/helpers/queue.ts:157-174 | With no row for the queue, the processor is called with `undefined`. A failure inserts a dead-letter row carrying `undefined`. |
| `DatabaseQueues.TruncateEmptiesEveryQueue` | src/helpers/queue.ts:103-105 | After `truncate` no queue has any row, whatever it is called. |
| `DatabaseQueues.JobsTable.constructor` | src/helpers/queue.ts:100 | The database connection starts with no rows and a well-formed id counter. |
| `DatabaseQueues.JobsTable.Create` | src/helpers/queue.ts:114-117 | An insert appends a row under the next id and advances the counter. |
| `DatabaseQueues.JobsTable.FindNewest` | src/helpers/queue.ts:123-126 | The newest-row select. It reads only. |
| `DatabaseQueues.JobsTable.Delete` | src/helpers/queue.ts:132-135 | Deletes the rows carrying the id and the queue. The counter is untouched. |
| `DatabaseQueues.JobsTable.CountWhere` | src/helpers/queue.ts:153-155 | Counts the rows tagged with the queue. |
| `DatabaseQueues.JobsTable.Truncate` | src/helpers/queue.ts:103-105 | Removes every row. |
| `DatabaseQueues.DatabaseQueue.constructor` | src/helpers/queue.ts:86-101 | Takes the configured queue name and dead-letter name, and the table of the database connection. |
| `DatabaseQueues.DatabaseQueue.Truncate` | src/helpers/queue.ts:103-105 | Removes every row, whatever its queue. |
| `DatabaseQueues.DatabaseQueue.Queue` | src/helpers/queue.ts:107-111 | Only sets the active name. No row changes. |
| `DatabaseQueues.DatabaseQueue.Add` | src/helpers/queue.ts:113-120 | Inserts one row tagged with the active queue, with no `formerQueue`. |
| `DatabaseQueues.DatabaseQueue.Pop` | src/helpers/queue.ts:122-138 | A select of the newest row of the active queue, then a delete of that row. Returns its item, or `undefined` when there is none. |
| `DatabaseQueues.DatabaseQueue.Peek` | src/helpers/queue.ts:140-151 | Returns `null` when the queue has no rows. Otherwise it returns what `Pop` would return. It deletes nothing. |
| `DatabaseQueues.DatabaseQueue.Length` | src/helpers/queue.ts:153-155 | The result is the number of rows tagged with the active queue. |
| `DatabaseQueues.DatabaseQueue.Process` | src/helpers/queue.ts:157-174 | Pops once and runs the processor. On failure it inserts the dead-letter row with `formerQueue` set. |
| `DatabaseQueues.DatabaseQueue.IsEmpty` | src/helpers/queue.ts:176-182 | True iff the active queue's count is 0. |
| `QueueFacade.QueueImpl.constructor` | src/helpers/queue.ts:186-187 | The facade starts on a fresh in-memory driver in its initial state. |
| `QueueFacade.QueueImpl.Connection` | src/helpers/queue.ts:189-199 | `vanilla` or `default` installs a fresh driver with every queue empty and the active name `default`. `database` installs a fresh table driver on `default` with the rows kept. Any other name keeps the driver. |
| `QueueFacade.QueueImpl.Truncate` | src/helpers/queue.ts:201-205 | Forwards to the driver's `truncate`, with the same effect. The driver and its active queue name are kept. |
| `QueueFacade.QueueImpl.Queue` | src/helpers/queue.ts:207-211 | Forwards to the driver's `queue`, with the same effect. |
| `QueueFacade.QueueImpl.Add` | src/helpers/queue.ts:213-215 | Forwards to the driver's `add`, with the same effect. |
| `QueueFacade.QueueImpl.Pop` | src/helpers/queue.ts:217-219 | Returns exactly what the driver's `pop` returns, with the same effect. |
| `QueueFacade.QueueImpl.Peek` | src/helpers/queue.ts:221-223 | Returns exactly what the driver's `peek` returns. |
| `QueueFacade.QueueImpl.Length` | src/helpers/queue.ts:225-227 | Returns exactly what the driver's `length` returns. |
| `QueueFacade.QueueImpl.Process` | src/helpers/queue.ts:229-231 | Forwards to the driver's `process`, with the same effect. |
| `QueueFacade.QueueImpl.IsEmpty` | src/helpers/queue.ts:233-235 | Returns exactly what the driver's `isEmpty` returns. |
| `QueueFacade.Fetch` | src/jobs/base.job.ts:14-18 | `connection(c)` then `queue(q)`. For `vanilla` or `default`, a fresh in-memory driver holds the initial lists plus an empty `q`, with `q` active. For `database`, a fresh table driver is on `q`. Either way the table is untouched. Any other connection (such as `fake` or `discard`) keeps the driver, and `queue(q)` then acts on it: the in-memory driver selects `q`, creating it if missing, and the table driver switches to `q`. |
| `QueueFacade.DefaultConnectionRefetchDropsJobs` | src/jobs/base.job.ts:14-18 | A job fetches its queue through `connection('default')` then `queue(...)`. After an `add` the length is 1, but the next such fetch sees length 0: the job is gone. |
| `QueueFacade.DatabaseConnectionRefetchKeepsJobs` | src/jobs/base.job.ts:14-18 | The same refetch on `database` still sees the job (length 1), and `pop` returns it. |
| `AuthMiddleware.MethodToAction` | src/middlewares/auth.middleware.ts:53-62 | GET with an id gives `read:own`. GET without one gives `read:all`. POST gives `write`, PUT gives `update`, DELETE gives `delete`. Every other method gives `undefined`. Each direction is stated. |
| `AuthMiddleware.NoRolesDenied` | src/middlewares/auth.middleware.ts:25-50 | With no roles the flag stays false and access is denied. |
| `AuthMiddleware.DecideIffEarliestAllows` | src/middlewares/auth.middleware.ts:25-50 | Access is granted iff some role allows and every earlier role has a permission config. A role allows when it has no entry for the route or its entry lists the action. The `!resource \|\|` test at line 42 never changes the outcome. |
| `AuthMiddleware.FirstDecidingRoleWins` | src/middlewares/auth.middleware.ts:27-46 | Roles that are configured but lack the action are skipped. The first role that is not skipped decides alone: an unconfigured role denies even when a later role would allow. |
| `AuthMiddleware.AllPassingDenied` | src/middlewares/auth.middleware.ts:27-50 | When every role is skipped, access is denied. |
| `AuthMiddleware.Authorize` | src/middlewares/auth.middleware.ts:8-51 | A missing or empty `authorization` header is denied before any verification. So is a token that fails verification. Otherwise access is granted iff some role allows and every earlier role is configured. |
| `AuthMiddleware.Handle` | src/middlewares/auth.middleware.ts:8-51 | The flag-and-`break` loop over the roles gives the same verdict as `Authorize`. `data.auth` is written with the decoded claims only when verification succeeds. |

## Left out

- Asynchrony. Every operation is modelled as one atomic step. The database `pop` (a select, then a delete) is therefore correct here only for a single process. Two workers could select the same row before either deletes it, and the model does not show this.
- The worker scheduler (`src/providers/queueworker.provider.ts`) is not part of this model: its timers, its concurrent job loading and its module resolution. So its unawaited `queue.isEmpty()` test, which makes every tick return early, is not modelled either.
- Logging (`Log.error`, `Log.info`) is not modelled.
- The mail jobs and the mail worker only call the mail library, so they are not modelled. Only their queue fetch (`src/jobs/base.job.ts`) appears, in the two facade scenarios.
- Side effects of the processor are not modelled. A processor that adds to the queue or switches the active queue while it runs is outside the model, because the processor is a pure success/failure report.
- Queue names that clash with properties of JavaScript's `Object.prototype` (`constructor`, `toString`, …) are not modelled. The in-memory driver keeps its lists in a plain object. For such a name `queue(name)` would not create a list, and `add` would throw.
- `DatabaseQueues.DatabaseQueue.IsEmpty`: modelled as "the count is 0". The source compares the count with the string `'0'`, which matches only a database client that reports counts as strings. A client that reports numbers would make `isEmpty` always false.
- `DatabaseQueues.DatabaseQueue.Length`: returns the count as a number, while the source returns whatever the database client reports.
- Serialisation of items in the `item` column is not modelled. A stored item is read back as it was written.
- `DatabaseQueues.JobsTable.Truncate` keeps the id counter. No rows remain after a truncate, so whether the database resets its sequence cannot change any later pop order.
- The database configuration file, which the database driver's constructor reads, is not part of this model. The model uses the names of the `database` connection in `src/config/queue.ts`.
- The fluent return values (`return this`) of `queue`, `add`, `connection` and `truncate` are not modelled. They carry no state beyond the object itself.
- Token signing and verification are foreign crypto. They are the `verify` parameter. The secret is folded into it.
- Malformed decoded tokens are not modelled. A token whose payload lacks `user.roles` would make `handle` throw a type error rather than deny.
- `Config.get` is not modelled. Its dotted-path lookup of role names is taken as a plain map lookup.
- Permission values that are present but falsy (`null`, `0`, `''`) are not modelled. A role or route entry is either a key of the map or absent, and absent stands for `undefined`.
