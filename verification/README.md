# Shell Queue Manager — a Dafny model of the queue core

This project models the core of the Shell Queue Manager. That core consists of:

- the task record and its lifecycle (`ShellTask`, `TaskStatus`);
- the queue store (`QueueManager`). It keeps a priority queue of pending tasks ordered by (priority class, arrival), the map of the single active task, the map of completed tasks, and a bounded history of submitted ids;
- one iteration of the background `Worker` loop, with its low-queue notice;
- configuration loading: defaults, then a private JSON file, then `SHELL_QUEUE_*` environment variables;
- the shell helpers that validate, run and scan a script.

Python mutates objects in place under a lock. The model writes each public operation as one pure transition over immutable data.

- `queue.Queue`'s counter of unfinished tasks is part of the state (`QueueState.unfinished`). `task_done` raises when the counter is exhausted.
- The wall clock becomes `Time` parameters. The `time.time()` tie-breaker in the queue key becomes an arrival number (`nextSeq`).
- `uuid4()` becomes a `FreshId` parameter.
- The file system becomes a map from path to file.
- What a subprocess does becomes a parameter (`Launch`, `RunOutcome`).
- Mails and callbacks become `Event`s, recorded in order.

Modules:

| file | module | models |
|---|---|---|
| wrappers.dfy | Wrappers | `Option`, `Result` |
| text.dfy | Text | `str.lower`, `str.isdigit`/`int`, `str(int)`, `split(",")`, `strip()`, substring search |
| tasks.dfy | Tasks | `core/task.py` |
| queue.dfy | Queue | `core/queue_manager.py` |
| worker.dfy | Worker | `core/worker.py` (the loop body, `_check_queue_state`, `_execute_script`) |
| config.dfy | Config | `config.py` |
| shell.dfy | Shell | `utils/shell.py` |

Every transition of the store keeps the store's invariant, `Queue.Inv`:

- the pending queue is sorted by (class, arrival) and every entry sits in its task's class;
- at most one task is active;
- pending tasks are Queued, the active task is Queued or Running, and completed tasks are terminal;
- every map is keyed by task id;
- the history holds at most 1000 ids.

The corrected operations also keep `Queue.CounterInv`: the unfinished counter equals the pending entries plus the task the worker holds.

Two observations that are not defects:

- The scan pattern `rm -rf /*` can never be the one a reason names. It extends `rm -rf /`, which is tried first (`Shell.SecondPatternNeverReported`).
- A task canceled through exit code -15 keeps the result it had before, which is none.

## Model

| member | source | states |
|---|---|---|
| Tasks.StatusValue | src/shell_queue_manager/core/task.py:8-14 | every status's value string is lower case, and the enum maps it back to the same status |
| Tasks.NewTask | src/shell_queue_manager/core/task.py:59-60 | a given non-empty id is kept; a missing or empty id is replaced by the fresh uuid, so the id is never empty; a new task is Queued, with no start time, completion time or result |
| Tasks.Start | src/shell_queue_manager/core/task.py:43-46 | the task becomes Running with its start time; its identity, completion time and result are unchanged; a Queued task stays within the lifecycle |
| Tasks.Complete | src/shell_queue_manager/core/task.py:48-52 | the status is Completed exactly when `success` and Failed otherwise; the result and completion time are stored; the start time and identity are unchanged |
| Tasks.Cancel | src/shell_queue_manager/core/task.py:54-57 | the status is Canceled with a completion time; the result and start time are left alone |
| Tasks.ToView | src/shell_queue_manager/core/task.py:29-41 | every field is copied and the status becomes a value string that maps back to it; `execution_time` is present exactly when both timestamps are truthy, and it is their difference |
| Tasks.ViewRoundTrip | src/shell_queue_manager/core/task.py:29-41 | the dictionary view loses nothing: the task reads back from it unchanged |
| Tasks.ExecutionTimeExact | src/shell_queue_manager/core/task.py:40 | on a clock that never reads 0, `execution_time` is present exactly when both timestamps are set |
| Tasks.ExecutionTimeOfLifecycle | src/shell_queue_manager/core/task.py:40 | a finished task reports an execution time exactly when it was started; an unfinished task reports none |
| Queue.Init | src/shell_queue_manager/core/queue_manager.py:16-22 | a new store satisfies the store invariant and the counter invariant |
| Queue.InsertSorted | src/shell_queue_manager/core/queue_manager.py:27-29 | putting an entry with a key distinct from every queued key keeps the queue in dequeue order |
| Queue.InsertMultiset | src/shell_queue_manager/core/queue_manager.py:29 | putting an entry adds exactly that entry to the queue's contents |
| Queue.AddTask | src/shell_queue_manager/core/queue_manager.py:24-36 | the queue gains exactly the entry (class of the task's priority, next arrival number, task), and the counter goes up by one; the history appends the id, and past 1000 ids it drops the oldest id together with that id's completed task; the active map is unchanged |
| Queue.AddTaskKeepsInv | src/shell_queue_manager/core/queue_manager.py:24-36 | submitting a fresh Queued task keeps the store invariant |
| Queue.AddAllClasses | src/shell_queue_manager/core/queue_manager.py:27-29 | after a run of submissions, each priority class holds its earlier entries followed by the new tasks of that class in submission order |
| Queue.DequeueOrderOfSubmissions | src/shell_queue_manager/core/queue_manager.py:27-29 | dequeue order after a run of submissions: all priority tasks before all normal tasks, each class first-in first-out, checked against a queue-free reference order |
| Queue.HistoryIsWindow | src/shell_queue_manager/core/queue_manager.py:30-36 | after any run of submissions the history is exactly the newest 1000 submitted ids, in order |
| Queue.GetNextTask | src/shell_queue_manager/core/queue_manager.py:38-50 | raises AssertionError exactly when a task is active; an empty queue yields no task and no change; otherwise the head, the least key, leaves the queue and becomes the only active task |
| Queue.GetNextKeepsInv | src/shell_queue_manager/core/queue_manager.py:38-50 | taking the next task keeps the store invariant |
| Queue.MarkTaskComplete | src/shell_queue_manager/core/queue_manager.py:52-62 | a task that is not active is a no-op; a result without `exit_code` raises KeyError before any change; exit code -15 cancels and keeps the old result; any other code completes the task (Completed iff `success`) with the result; the task moves from active to completed |
| Queue.MarkCompleteKeepsInv | src/shell_queue_manager/core/queue_manager.py:52-62 | committing a result keeps the store invariant |
| Queue.GetTask | src/shell_queue_manager/core/queue_manager.py:64-72 | a task is found exactly when it is active or completed, and the active map is searched first; pending tasks are not found; a found task carries the id asked for |
| Queue.GetQueueStatus | src/shell_queue_manager/core/queue_manager.py:74-81 | the queue size and completed count come from the same state, and the active list is exactly the views of the active tasks |
| Queue.StatusListsAtMostOne | src/shell_queue_manager/core/queue_manager.py:74-81 | under the store invariant the status lists at most one active task |
| Queue.TaskDone | src/shell_queue_manager/core/queue_manager.py:87-89 | the counter drops by one, and ValueError is raised exactly when it is already below one |
| Queue.ClearQueue | src/shell_queue_manager/core/queue_manager.py:91-102 | drains every pending entry, counting each done; it returns the number drained with the queue empty exactly when the counter covers the queue, and otherwise raises ValueError after draining one entry more than the counter allowed, with the rest still queued; drained tasks are neither canceled nor recorded; the active task, completed tasks and history are untouched; the store invariant is kept, and under the counter invariant the call always returns and keeps it |
| Queue.ClearKeepsActiveListed | src/shell_queue_manager/core/queue_manager.py:91-102 | clearing while a task runs leaves the status listing that task, and a clear that returns leaves queue size 0 |
| Queue.RecentIds | src/shell_queue_manager/core/queue_manager.py:107 | `history[-limit:]` is the last `limit` ids, or the whole history when `limit <= 0` or when the history is shorter |
| Queue.CollectViewsAll | src/shell_queue_manager/core/queue_manager.py:110-113 | when every id is found, the collected views are the views of the ids' tasks, in the same order |
| Queue.FoundIds | src/shell_queue_manager/core/queue_manager.py:110-113 | the ids `get_task` finds, in the order given: an id is kept exactly when it is given and found, and when every id is found all are kept |
| Queue.CollectViewsOfFoundIds | src/shell_queue_manager/core/queue_manager.py:110-113 | for any ids, the collected views are the views of the found ids' tasks, one per found id and in the same order |
| Queue.GetRecentTasks | src/shell_queue_manager/core/queue_manager.py:104-114 | never more views than `limit` (when positive) or than the history holds |
| Queue.RecentTasksFound | src/shell_queue_manager/core/queue_manager.py:104-114 | each returned view is that of a task `get_task` finds under a history id, and it carries that id |
| Queue.RecentTasksNewestFirst | src/shell_queue_manager/core/queue_manager.py:104-114 | when every history id is still found, the result is the views of the last `limit` ids, newest first |
| Queue.RecentTasksAreFoundIds | src/shell_queue_manager/core/queue_manager.py:104-114 | in every state, the result is the views of the tasks `get_task` finds among the last `limit` history ids taken newest first, one per found id, in that order; ids that are not found are skipped |
| Queue.DrainCompletes | src/shell_queue_manager/core/queue_manager.py:95-101 | the drain loop raises exactly when some entry is selected and the counter is below the number selected; otherwise it splits the whole queue into the kept entries, in order, and the selected ones, and the counter drops by the number selected |
| Queue.DrainStops | src/shell_queue_manager/core/queue_manager.py:139-159 | when the drain loop raises, it has drained a prefix of the queue: its selected entries, one more than the counter allowed, are removed; its other entries are on a new queue that is dropped; the rest stays queued and the counter is spent |
| Queue.DrainedKeepsInv | src/shell_queue_manager/core/queue_manager.py:139-159 | the store an abort's loop leaves, whether it completes or raises, keeps the store invariant |
| Queue.KeepPartition | src/shell_queue_manager/core/queue_manager.py:139-159 | removing by a test and keeping by its negation partition the queue |
| Queue.AbortTaskById | src/shell_queue_manager/core/queue_manager.py:120-162 | an active id is refused with no change; otherwise the call raises ValueError exactly when the counter is below the number of queued entries with the id, leaving the counter spent; the active task and history are untouched; under the counter invariant the call returns and keeps the invariant, still counting the held task (corrected, see Findings) |
| Queue.AbortByIdQueue | src/shell_queue_manager/core/queue_manager.py:134-162 | when the call returns, the answer is true exactly when the id was queued and the queue keeps exactly the entries with other ids; the queue stays in dequeue order whether the call returns or raises |
| Queue.AbortByIdRecords | src/shell_queue_manager/core/queue_manager.py:143-151 | when the call returns and found the id, the completed map holds under the id the canceled copy of the last queued entry with that id; the map gains no other key and its other tasks are unchanged |
| Queue.AbortByIdMissing | src/shell_queue_manager/core/queue_manager.py:134-162 | an id that is not queued returns false and changes nothing |
| Queue.AbortByIdKeepsInv | src/shell_queue_manager/core/queue_manager.py:120-162 | abort by id keeps the store invariant |
| Queue.AbortTwice | src/shell_queue_manager/core/queue_manager.py:120-162 | aborting the same id a second time finds nothing and changes nothing |
| Queue.AbortTaskByIdAsWritten | src/shell_queue_manager/core/queue_manager.py:134-162 | as written, a completed loop installs a queue whose counter equals the number of entries put back; the answer, the raise and everything else are those of the corrected call |
| Queue.AbortTasksByPath | src/shell_queue_manager/core/queue_manager.py:164-202 | with the intended notifier call: the call raises ValueError exactly when the counter is below the number of queued entries with the path; otherwise the count is that number and one notice goes out per removed task; active tasks and history are untouched; under the counter invariant it returns and keeps the invariant |
| Queue.AbortByPathQueue | src/shell_queue_manager/core/queue_manager.py:174-199 | for the intended call that returns, the queue keeps exactly the entries with other paths and shrinks by the count; it stays in dequeue order either way |
| Queue.AbortByPathNotices | src/shell_queue_manager/core/queue_manager.py:180-190 | for the intended call that returns, the notices are the Canceled views of the removed tasks in dequeue order, each for the path, and the completed map records each of them |
| Queue.AbortByPathKeepsInv | src/shell_queue_manager/core/queue_manager.py:164-202 | the intended abort by path keeps the store invariant |
| Queue.AbortTasksByPathAsWritten | src/shell_queue_manager/core/queue_manager.py:174-202 | as written, the call returns exactly when no queued entry has the path, and then returns 0 with the queue kept and its counter reset to the queue's length; otherwise the first match, already canceled and recorded, raises ValueError when the counter is spent and AttributeError otherwise, and only the entries behind the match stay queued |
| Queue.PathAsWrittenStopsAtFirstMatch | src/shell_queue_manager/core/queue_manager.py:174-196 | as written, a match stops the loop where a drain with a spent counter stops: the same entries stay queued, the same completed map results, and the entries in front of the match were moved to the dropped new queue |
| Queue.PathAbortScenario | src/shell_queue_manager/core/queue_manager.py:174-202 | concrete case: submit A and B with different paths and abort B's path; as written the call raises AttributeError, the queue is empty and `get_task` no longer finds A; the intended call returns 1 and keeps A queued |
| Queue.AsWrittenAgreesWhenIdle | src/shell_queue_manager/core/queue_manager.py:134-162 | with no active task, the as-written abort by id agrees with the corrected one, and so does the abort by path when no queued entry has the path |
| Queue.AbortAllAsWritten | src/shell_queue_manager/core/queue_manager.py:139-162 | as written, aborting an id that every queued entry carries, with the counter covering the queue, returns found, empties the queue and zeroes the counter |
| Queue.AsWrittenLosesInFlightCount | src/shell_queue_manager/core/queue_manager.py:158-162 | while a task is held, the as-written abort by id returns with the counter one short of the entries not yet marked done, and so does the as-written abort by path whenever it returns |
| Worker.CheckQueueState | src/shell_queue_manager/core/worker.py:79-92 | without a notifier nothing happens; otherwise the size is remembered, and one notice goes out exactly when the size falls from above the threshold to at most it |
| Worker.QuietWhileLow | src/shell_queue_manager/core/worker.py:86-92 | once the queue has been seen at or below the threshold, no notice follows while it stays there |
| Worker.AtMostOneNoticePerDescent | src/shell_queue_manager/core/worker.py:86-92 | a run of sizes that never rises above the threshold yields at most the one notice of its first check |
| Worker.NoNotifierNoEvents | src/shell_queue_manager/core/worker.py:81-82 | without a notifier, any run of checks neither sends nor remembers anything |
| Worker.ScriptResultOf | src/shell_queue_manager/core/worker.py:138-186 | the result always carries the task id, path and an exit code; a missing script or launch error gives -1 with the error text and no outputs; an exit gives the code and both outputs |
| Worker.SuccessIffExitZero | src/shell_queue_manager/core/worker.py:117 | a run is a success exactly when the script ran and exited with 0 |
| Worker.Begin | src/shell_queue_manager/core/worker.py:96-111 | the queue check's notices come first, then the start callback with the head task; a refused dequeue faults exactly when a task is active, and an empty queue is idle; otherwise the head is held, started and made the only active task |
| Worker.Finish | src/shell_queue_manager/core/worker.py:116-136 | a finished iteration releases the held task; a fault leaves the worker state as it was, still holding it |
| Worker.IdleIterationChangesNothing | src/shell_queue_manager/core/worker.py:102-105 | with nothing queued or active, an iteration is idle and leaves the store and the held task alone |
| Worker.FailureNoticeBeforeCommit | src/shell_queue_manager/core/worker.py:116-123 | the failure notice is sent exactly when the run failed and failure notices are on with a notifier, and it comes before the commit |
| Worker.IterationRunsHead | src/shell_queue_manager/core/worker.py:94-136 | an iteration runs the head of the queue and commits it with its start and end times; nothing is left active, the worker holds nothing, and the counter invariant holds again |
| Worker.IterationOutcome | src/shell_queue_manager/core/worker.py:114-123 | exit 0 commits Completed and exit -15 commits Canceled; any other outcome, including a missing script or a launch error, commits Failed; a result is stored unless the task is canceled |
| Worker.FinishEvents | src/shell_queue_manager/core/worker.py:116-129 | the second half emits, in order, the failure notice when one is due, the commit, and the completion callback with the task as committed |
| Worker.IterationEvents | src/shell_queue_manager/core/worker.py:98-129 | an iteration that takes a task emits, in order, the queue check's notices, the start callback with the head task, the failure notice when due, the commit, and the completion callback with the committed task |
| Worker.IterationKeepsInv | src/shell_queue_manager/core/worker.py:94-136 | a whole iteration keeps the store invariant |
| Worker.FinishWithExhaustedCounter | src/shell_queue_manager/core/worker.py:129-136 | with the counter exhausted, the result is still committed, but `task_done` raises ValueError and the worker keeps holding the task |
| Worker.AbortAsWrittenStrandsWorker | src/shell_queue_manager/core/worker.py:129-136 | an as-written abort between dequeue and commit makes the iteration fault with ValueError, leaving the worker holding an already committed task |
| Worker.AbortCorrectedReleasesWorker | src/shell_queue_manager/core/worker.py:129-132 | with the corrected abort, the same interleaving finishes, releases the task and restores the counter invariant |
| Worker.TwoTaskScenario | src/shell_queue_manager/core/worker.py:94-136 | concrete case: submit A and B, the worker takes A, B is aborted; as written the worker is stranded holding A; corrected, it finishes |
| Worker.PathAbortAsWrittenStrandsWorker | src/shell_queue_manager/core/worker.py:129-136 | while the worker holds the only task, the as-written abort by path returns 0 with the counter zeroed, so the iteration faults with ValueError and the worker keeps holding the committed task |
| Worker.AbortAsWrittenBreaksClear | src/shell_queue_manager/core/queue_manager.py:91-102 | after an as-written abort by id while another entry stays pending, the worker's iteration finishes but leaves the counter one below the queue, so clearing the queue drains every entry and raises ValueError; after the corrected abort the clear returns |
| Config.DefaultKeysAreTheTable | src/shell_queue_manager/config.py:10-33 | the default table has nineteen distinct keys, the key list matches it, and the script timeout is 604800 seconds |
| Config.Coerce | src/shell_queue_manager/config.py:99-111 | the coercions are tried in order: a case-insensitive true/false word, then all digits as an integer, then for the recipient key a comma list of stripped parts; otherwise the text is kept |
| Config.LoadFromEnvironment | src/shell_queue_manager/config.py:84-115 | exactly the default keys whose `SHELL_QUEUE_` variable is set, each holding its coerced value |
| Config.LoadPrivateConfig | src/shell_queue_manager/config.py:66-82 | the first candidate file that exists and parses wins; missing or unreadable files pass to the next; no file gives an empty table |
| Config.LoadConfig | src/shell_queue_manager/config.py:40-64 | the keys are the defaults plus the file's; an environment value beats the file, which beats the default |
| Config.LoadWithoutOverrides | src/shell_queue_manager/config.py:50-64 | with no file and no variables the configuration is the defaults |
| Config.NumberRoundTrip | src/shell_queue_manager/config.py:100-107 | a decimal number reads back as that integer, except that "0" and "1" read as booleans |
| Config.BoolWordsIgnoreCase | src/shell_queue_manager/config.py:100-103 | boolean words are recognised in any letter case |
| Config.RecipientsRoundTrip | src/shell_queue_manager/config.py:110-111 | stripped, comma-free addresses joined with commas read back as the same list |
| Config.SingleRecipientStaysString | src/shell_queue_manager/config.py:110-113 | a single address without a comma stays a string, not a one-item list |
| Config.GetEmailConfig | src/shell_queue_manager/config.py:117-136 | each of the eight email fields is the configuration's value for its key, or its own fallback when the key is missing: false, "", 587, "", "", "", [] and true |
| Config.LoadedEmailConfigHasNoFallbacks | src/shell_queue_manager/config.py:40-64 | for any private file and environment, the loaded configuration holds every email key, so every email field is the loaded value and no fallback applies |
| Config.EmailConfigOfDefaults | src/shell_queue_manager/config.py:117-136 | the email settings of an unoverridden configuration are the default email entries |
| Config.EmailPortFromEnvironment | src/shell_queue_manager/config.py:117-136 | a port set in the environment reaches the email settings as an integer, whatever the file says |
| Text.ParseNatToString | src/shell_queue_manager/config.py:106-107 | `int(str(n)) == n` for natural numbers |
| Text.Split | src/shell_queue_manager/config.py:111 | splitting on one character never gives an empty list, no part holds the separator, and joining the parts gives the text back |
| Text.SplitJoin | src/shell_queue_manager/config.py:111 | splitting a join of separator-free parts gives the parts back |
| Text.Strip | src/shell_queue_manager/config.py:111 | `strip()` yields the infix left after removing the leading and trailing whitespace, and it neither starts nor ends with whitespace |
| Text.StripIdempotent | src/shell_queue_manager/config.py:111 | stripping twice is stripping once |
| Shell.ValidateScript | src/shell_queue_manager/utils/shell.py:9-35 | valid exactly when the file exists and is executable or can be made so; only that file's executable flag may change |
| Shell.ValidateSettles | src/shell_queue_manager/utils/shell.py:9-35 | validating again gives the same verdict and changes nothing further |
| Shell.ExecuteScript | src/shell_queue_manager/utils/shell.py:38-117 | validation's permission change is kept; an invalid script gives the fixed invalid result without running; a completed run reports its code, outputs and CPU times; a timeout or an exception gives exit code -1 and its error text |
| Shell.ExecuteLeavesScriptExecutable | src/shell_queue_manager/utils/shell.py:9-35 | after executing a valid script it is executable, and validating it again changes nothing |
| Shell.SuccessIffExitZero | src/shell_queue_manager/utils/shell.py:86-94 | `success` agrees with `exit_code == 0`, and holds exactly for a valid script that ran and exited with 0 |
| Shell.TimesOnlyForCompletedRuns | src/shell_queue_manager/utils/shell.py:80-117 | exactly the completed runs carry times and no error, and the total time is user time plus system time |
| Shell.FirstMatch | src/shell_queue_manager/utils/shell.py:145-147 | no pattern matches exactly when none occurs in the text; otherwise the result is the first pattern in list order that occurs |
| Shell.IsScriptSafe | src/shell_queue_manager/utils/shell.py:120-151 | safe exactly when the file exists, is readable and contains none of the seven patterns; a missing file and a read error give their own reasons; a readable file's reason names the first pattern found, in list order, or says it appears safe |
| Shell.SecondPatternNeverReported | src/shell_queue_manager/utils/shell.py:140-147 | no scan ever reports `rm -rf /*`, because `rm -rf /` is its prefix and is tried first |
| Shell.ScanIgnoresPermissions | src/shell_queue_manager/utils/shell.py:120-151 | scanning after validation gives the same answer as scanning before it |
| Text.Contains | src/shell_queue_manager/utils/shell.py:146 | `t in s` holds exactly when some position of `s` starts a copy of `t` |

## Left out

- Threads and the lock: the model does not cover them. Each store operation is one atomic step. The only interleaving modelled is an abort between the worker's dequeue and its commit (`Worker.Begin`, then `Worker.Finish`).
- `Worker.start`, `stop`, `is_running`, `get_current_task`, `set_callbacks` and the `while self._running` loop: these are thread management and plain accessors. The model covers one loop iteration. The callbacks are the `hasStartHook` and `hasCompleteHook` flags.
- The one-second sleep after a worker error, logging, and `get_lock`: they have no effect on state.
- `get_next_task`'s `block` and `timeout` arguments: a blocking get that times out is modelled as the empty-queue case (`None`).
- `get_queue_size`: it is `|queue|`, which `Worker.Begin` passes to `Worker.CheckQueueState`.
- The `queue.Empty` race inside the drain loops of `clear_queue` and the aborts: under the lock the queue cannot shrink between `empty()` and `get_nowait()`.
- Email sending: the `EmailNotifier` is not part of this model. Its `send_queue_low_notification` and `send_task_failed_notification` calls are the events `QueueLow` and `TaskFailed`. It defines no `send_task_aborted_notification`, so `Queue.AbortTasksByPathAsWritten` raises AttributeError where the source calls it. `Queue.AbortTasksByPath` returns the views that call would send (see Findings).
- Running a process, `os.access`, `os.chmod`, `os.times` and file reads: these are parameters (`Launch`, `RunOutcome`, `FileEntry`). The environment passed to the script and the `env` argument of `execute_script` are not modelled.
- `Worker.ScriptResultOf`: a failed `chmod` in `_execute_script` only logs, so it is not represented. Running a non-executable script through `/bin/bash` still works.
- Shell.ExecuteScript: the model does not enforce that a timeout only happens when one was given. `TimedOut` with no timeout renders "None", as Python's f-string would.
- Float timestamps and CPU times: these are natural numbers and integers.
- `time.time()` in the queue key: it is a strictly increasing arrival number. Two submissions at the same float time would fall back to comparing `ShellTask` objects in Python, which raises; the model does not cover that.
- Python's Unicode `str.isdigit` and `str.lower`: the model uses ASCII digits and ASCII case only. For the boolean words this gives the same answers.
- `json.load` and the JSON file format: the model does not cover them. A parsed file is a `Settings` map. A file whose JSON is not an object is not modelled.
- `create_private_config_template`: it only writes a file, which is I/O outside the core.
- The `MAX_QUEUE_SIZE` and `MAX_HISTORY_SIZE` configuration keys: the core never reads them. The store's history bound is its own constant, 1000.
- Queue.GetRecentTasks: its own contract states only the size bounds. What the views are is stated by `Queue.RecentTasksAreFoundIds`, `Queue.RecentTasksFound` and `Queue.RecentTasksNewestFirst`.
- Queue.AbortTaskById: its own contract states the refusal, when it raises and what is untouched. The queue and completed-map effects are stated by `Queue.AbortByIdQueue`, `Queue.AbortByIdRecords` and `Queue.AbortByIdMissing` for a call that returns, and by `Queue.DrainStops` for one that raises.
- Queue.AbortTaskById and Queue.AbortTasksByPath: every task one call cancels gets the same `now`. `cancel()` reads `time.time()` once per task, so in Python the completion times of one call may differ slightly.
- Queue.AbortTasksByPath: it models the intended behaviour, with a notifier that has `send_task_aborted_notification`. As written, the source raises AttributeError at the first match instead (`Queue.AbortTasksByPathAsWritten`, see Findings). Its own contract states the count, when it raises and what is untouched. When its loop raises ValueError, the notices already sent for the entries drained before are not returned.
- Queue.AbortByPathQueue: it states the queue effect of the intended `Queue.AbortTasksByPath` only. The source as written never returns when an entry matches.
- Queue.AbortByPathNotices: it states the notices and records of the intended `Queue.AbortTasksByPath` only. The source as written never sends a notice.
- Worker.Finish: its own contract states only whether the task is released. The events and the commit are stated by `Worker.FinishEvents`, `Worker.FailureNoticeBeforeCommit`, `Worker.IterationRunsHead` and `Worker.IterationOutcome`.
- The HTTP API, the CLI and the email notifier's message formatting: these are outside the core.

## Findings

| source | as written | input that shows it | evidently intended | confidence | as-written member | corrected member |
|---|---|---|---|---|---|---|
| src/shell_queue_manager/core/queue_manager.py:134-162 | `abort_task_by_id` replaces the `PriorityQueue` with a new one whose unfinished counter counts only the entries put back. The count of the task the worker has dequeued but not yet marked done is lost. | Submit A, then B. The worker takes A. Call `abort_task_by_id("B")` before A finishes. The new queue's counter is 0, so the worker's `task_done()` raises ValueError. The worker's `except` catches it, and `_current_task = None` is skipped: the worker keeps reporting A although A is completed. With A, B and C submitted instead, A's `task_done()` succeeds but leaves the counter one below the queue, and a later `clear_queue()` drains C and then raises ValueError from `task_done()`. | The counter should keep counting the held task: the old counter minus the removed entries. | medium, not executed | `Queue.AbortTaskByIdAsWritten`, shown by `Worker.AbortAsWrittenStrandsWorker`, `Worker.TwoTaskScenario` and `Worker.AbortAsWrittenBreaksClear` | `Queue.AbortTaskById`, proved by `Worker.AbortCorrectedReleasesWorker` and the second half of `Worker.AbortAsWrittenBreaksClear` |
| src/shell_queue_manager/core/queue_manager.py:176-200 | `abort_tasks_by_path` rebuilds the queue the same way, and its counter forgets the held task. It returns only when nothing matches (see the next row). | Submit A only. The worker takes A. Call `abort_tasks_by_path("x", notifier)`: nothing is queued, so it returns 0 and installs a queue whose counter is 0. The worker's `task_done()` raises, exactly as above. | The counter should keep counting the held task. | medium, not executed | `Queue.AbortTasksByPathAsWritten`, shown by `Worker.PathAbortAsWrittenStrandsWorker` and `Queue.AsWrittenLosesInFlightCount` | `Queue.AbortTasksByPath`, which keeps `Queue.CounterInv` |
| src/shell_queue_manager/core/queue_manager.py:183-190 | `abort_tasks_by_path` calls `email_notifier.send_task_aborted_notification`, which `EmailNotifier` (src/shell_queue_manager/utils/email.py) does not define. The first match is canceled, recorded and counted done, and then AttributeError propagates out of the call. The queue is never swapped: entries in front of the match, already moved to the new queue, are lost, and entries behind it stay queued. | Submit A with path p, then B with path q. Call `abort_tasks_by_path(q, notifier)`. AttributeError is raised, B is recorded as Canceled, the queue is empty, and `get_task("A")` returns None although A never ran. | A notifier method that sends the abort notice, so that the loop completes, the queue is swapped and the count is returned. | high, not executed | `Queue.AbortTasksByPathAsWritten`, shown by `Queue.PathAbortScenario` and `Queue.PathAsWrittenStopsAtFirstMatch` | `Queue.AbortTasksByPath`, proved by `Queue.AbortByPathQueue`, `Queue.AbortByPathNotices` and the second half of `Queue.PathAbortScenario` |
