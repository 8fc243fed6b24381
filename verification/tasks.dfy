/** The task record and its lifecycle (`ShellTask` and `TaskStatus`).
    Python mutates a task in place; here every transition returns the new
    record, and the queue store writes it back wherever Python would have
    shared the object. */
module Tasks {
  import opened Wrappers
  import opened Text

  /** Seconds on an abstract clock; `time.time()` becomes a parameter. */
  type Time = nat

  /** A `uuid.uuid4()` string, which is never empty. */
  type FreshId = s: string | |s| > 0 witness "0"

  datatype Status = Queued | Running | Completed | Failed | Canceled

  predicate IsTerminal(s: Status) {
    s == Completed || s == Failed || s == Canceled
  }

  /** `TaskStatus(v)`: the enum member whose value is `v`, if any. */
  function StatusFromValue(v: string): Option<Status> {
    if v == "queued" then Some(Queued)
    else if v == "running" then Some(Running)
    else if v == "completed" then Some(Completed)
    else if v == "failed" then Some(Failed)
    else if v == "canceled" then Some(Canceled)
    else None
  }

  /** `status.value`: a lower-case name that the enum maps back to the status. */
  function StatusValue(s: Status): (v: string)
    ensures Lower(v) == v
    ensures StatusFromValue(v) == Some(s)
  {
    match s
    case Queued => "queued"
    case Running => "running"
    case Completed => "completed"
    case Failed => "failed"
    case Canceled => "canceled"
  }

  /** The result dictionary, with one optional field per key the core
      reads or writes. */
  datatype ScriptResult = ScriptResult(
    taskId: Option<string>,
    scriptPath: Option<string>,
    exitCode: Option<int>,
    stdout: Option<string>,
    stderr: Option<string>,
    error: Option<string>)

  datatype Task = Task(
    scriptPath: string,
    priority: bool,
    taskId: string,
    status: Status,
    result: Option<ScriptResult>,
    createdAt: Time,
    startedAt: Option<Time>,
    completedAt: Option<Time>)

  /** The fields no transition touches. */
  predicate SameIdentity(a: Task, b: Task) {
    a.scriptPath == b.scriptPath && a.priority == b.priority
    && a.taskId == b.taskId && a.createdAt == b.createdAt
  }

  /** Which fields are set in each status along the paths the system takes:
      created Queued, then Running, then a terminal status; or finished
      straight from Queued (a canceled queued task, or an active task marked
      complete before it was started). A canceled task never holds a result. */
  predicate Lifecycle(t: Task) {
    match t.status
    case Queued => t.startedAt.None? && t.completedAt.None? && t.result.None?
    case Running => t.startedAt.Some? && t.completedAt.None? && t.result.None?
    case Completed => t.completedAt.Some? && t.result.Some?
    case Failed => t.completedAt.Some? && t.result.Some?
    case Canceled => t.completedAt.Some? && t.result.None?
  }

  /** Construction followed by `__post_init__`: a missing or empty id is
      replaced by a fresh one, so the id is never empty. */
  function NewTask(scriptPath: string, freshId: FreshId, now: Time,
                   priority: bool := false, taskId: Option<string> := None): (t: Task)
    ensures t.taskId != ""
    ensures taskId.Some? && taskId.value != "" ==> t.taskId == taskId.value
    ensures taskId.None? || taskId.value == "" ==> t.taskId == freshId
    ensures t.scriptPath == scriptPath && t.priority == priority && t.createdAt == now
    ensures t.status == Queued && Lifecycle(t)
  {
    var id := if taskId.Some? && taskId.value != "" then taskId.value else freshId;
    Task(scriptPath, priority, id, Queued, None, now, None, None)
  }

  /** `start()`: Running from now on; completion time and result untouched. */
  function Start(t: Task, now: Time): (r: Task)
    ensures SameIdentity(t, r)
    ensures r.status == Running && r.startedAt == Some(now)
    ensures r.completedAt == t.completedAt && r.result == t.result
    ensures t.status == Queued && Lifecycle(t) ==> Lifecycle(r)
  {
    t.(status := Running, startedAt := Some(now))
  }

  /** `complete(result, success)`: Completed exactly when `success`, else
      Failed; the result is stored and the completion time set. */
  function Complete(t: Task, result: ScriptResult, success: bool, now: Time): (r: Task)
    ensures SameIdentity(t, r)
    ensures r.status == Completed <==> success
    ensures r.status == Failed <==> !success
    ensures r.result == Some(result) && r.completedAt == Some(now)
    ensures r.startedAt == t.startedAt
    ensures (t.status == Queued || t.status == Running) && Lifecycle(t) ==> Lifecycle(r)
  {
    t.(status := if success then Completed else Failed, result := Some(result), completedAt := Some(now))
  }

  /** `cancel()`: Canceled with a completion time; the result is left alone. */
  function Cancel(t: Task, now: Time): (r: Task)
    ensures SameIdentity(t, r)
    ensures r.status == Canceled && r.completedAt == Some(now)
    ensures r.result == t.result && r.startedAt == t.startedAt
    ensures (t.status == Queued || t.status == Running) && Lifecycle(t) ==> Lifecycle(r)
  {
    t.(status := Canceled, completedAt := Some(now))
  }

  /** Python truthiness of an optional float timestamp: set and non-zero. */
  predicate Truthy(o: Option<Time>) {
    o.Some? && o.value != 0
  }

  /** `to_dict()`. */
  datatype TaskView = TaskView(
    taskId: string,
    scriptPath: string,
    priority: bool,
    status: string,
    result: Option<ScriptResult>,
    createdAt: Time,
    startedAt: Option<Time>,
    completedAt: Option<Time>,
    executionTime: Option<int>)

  /** `to_dict()`: every field copied, the status as its value string, and
      `execution_time` present exactly when both timestamps are truthy. */
  function ToView(t: Task): (v: TaskView)
    ensures v.taskId == t.taskId && v.scriptPath == t.scriptPath && v.priority == t.priority
    ensures v.result == t.result && v.createdAt == t.createdAt
    ensures v.startedAt == t.startedAt && v.completedAt == t.completedAt
    ensures StatusFromValue(v.status) == Some(t.status)
    ensures v.executionTime.Some? <==> Truthy(t.startedAt) && Truthy(t.completedAt)
    ensures v.executionTime.Some? ==> v.executionTime.value == t.completedAt.value - t.startedAt.value
  {
    var exec := if Truthy(t.completedAt) && Truthy(t.startedAt)
                then Some(t.completedAt.value - t.startedAt.value) else None;
    TaskView(t.taskId, t.scriptPath, t.priority, StatusValue(t.status), t.result,
             t.createdAt, t.startedAt, t.completedAt, exec)
  }

  /** Reads a task back from its dictionary view. */
  function FromView(v: TaskView): Option<Task> {
    match StatusFromValue(v.status)
    case None => None
    case Some(s) => Some(Task(v.scriptPath, v.priority, v.taskId, s, v.result,
                              v.createdAt, v.startedAt, v.completedAt))
  }

  /** The view loses nothing: the task can be read back from it. */
  lemma ViewRoundTrip(t: Task)
    ensures FromView(ToView(t)) == Some(t)
  {
    assert StatusFromValue(StatusValue(t.status)) == Some(t.status);
  }

  /** On a clock that never reads zero, `execution_time` is present exactly
      when both timestamps are set, and equals their difference. */
  lemma ExecutionTimeExact(t: Task)
    requires t.startedAt.Some? ==> t.startedAt.value > 0
    requires t.completedAt.Some? ==> t.completedAt.value > 0
    ensures ToView(t).executionTime.Some? <==> t.startedAt.Some? && t.completedAt.Some?
    ensures ToView(t).executionTime.Some? ==>
      ToView(t).executionTime == Some(t.completedAt.value - t.startedAt.value)
  {
  }

  /** A finished task reports how long it ran exactly when it was started;
      a task not yet finished reports none. */
  lemma ExecutionTimeOfLifecycle(t: Task)
    requires Lifecycle(t)
    requires t.startedAt.Some? ==> t.startedAt.value > 0
    requires t.completedAt.Some? ==> t.completedAt.value > 0
    ensures IsTerminal(t.status) ==> (ToView(t).executionTime.Some? <==> t.startedAt.Some?)
    ensures !IsTerminal(t.status) ==> ToView(t).executionTime.None?
  {
  }
}
