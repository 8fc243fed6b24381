/** The background worker: one iteration of its loop, split at the point
    where the script runs. `Begin` covers the queue check, the dequeue and
    the start of the task; `Finish` covers the result, the failure notice,
    the commit to the store and the queue bookkeeping. What the script does
    is a parameter (`Launch`); notifications and callbacks become events. */
module Worker {
  import opened Wrappers
  import opened Tasks
  import opened Queue

  /** The worker's settings: whether a notifier is configured, whether it
      reports failures, the low-queue threshold, and which callbacks are
      set. */
  datatype WorkerConfig = WorkerConfig(
    hasNotifier: bool,
    notifyOnFailure: bool,
    threshold: int,
    hasStartHook: bool,
    hasCompleteHook: bool)

  /** The constructor's defaults: failure notices on, threshold 1. */
  function DefaultWorkerConfig(hasNotifier: bool): (c: WorkerConfig)
    ensures c.hasNotifier == hasNotifier && c.notifyOnFailure && c.threshold == 1
    ensures !c.hasStartHook && !c.hasCompleteHook
  {
    WorkerConfig(hasNotifier, true, 1, false, false)
  }

  /** The id of the task the worker holds, and the queue size it last saw. */
  datatype WorkerState = WorkerState(current: Option<string>, lastQueueSize: int)

  const Fresh := WorkerState(None, 0)

  /** What leaves the worker, in order: notifier mails, callback calls and
      the commit of a result to the store. */
  datatype Event =
    | QueueLow(size: int)
    | TaskFailed(result: ScriptResult)
    | StartHook(task: Task)
    | Committed(taskId: string)
    | CompleteHook(task: Task)

  // ----------------------------------------------------- queue-low check

  /** `_check_queue_state`: without a notifier nothing happens at all;
      otherwise a notice goes out when the size falls from above the
      threshold to at most the threshold, and the size is remembered. */
  function CheckQueueState(cfg: WorkerConfig, w: WorkerState, size: int): (r: (WorkerState, seq<Event>))
    ensures !cfg.hasNotifier ==> r == (w, [])
    ensures cfg.hasNotifier ==> r.0 == w.(lastQueueSize := size)
    ensures |r.1| <= 1
    ensures r.1 != [] <==> cfg.hasNotifier && w.lastQueueSize > cfg.threshold && size <= cfg.threshold
    ensures r.1 != [] ==> r.1 == [QueueLow(size)]
  {
    if !cfg.hasNotifier then (w, [])
    else
      var notice := if w.lastQueueSize > cfg.threshold && size <= cfg.threshold then [QueueLow(size)] else [];
      (w.(lastQueueSize := size), notice)
  }

  /** The checks over a run of observed queue sizes. */
  function CheckRun(cfg: WorkerConfig, w: WorkerState, sizes: seq<int>): (r: (WorkerState, seq<Event>))
    decreases |sizes|
  {
    if |sizes| == 0 then (w, [])
    else
      var first := CheckQueueState(cfg, w, sizes[0]);
      var rest := CheckRun(cfg, first.0, sizes[1..]);
      (rest.0, first.1 + rest.1)
  }

  /** The notice is edge-triggered: while the queue stays at or below the
      threshold after being seen there, no further notice goes out. */
  lemma {:induction false} QuietWhileLow(cfg: WorkerConfig, w: WorkerState, sizes: seq<int>)
    requires w.lastQueueSize <= cfg.threshold
    requires forall i :: 0 <= i < |sizes| ==> sizes[i] <= cfg.threshold
    ensures CheckRun(cfg, w, sizes).1 == []
    decreases |sizes|
  {
    if |sizes| > 0 {
      var w1 := CheckQueueState(cfg, w, sizes[0]).0;
      assert w1.lastQueueSize <= cfg.threshold;
      QuietWhileLow(cfg, w1, sizes[1..]);
    }
  }

  /** A run of sizes that never rises above the threshold yields at most one
      notice, and then for the first size. */
  lemma AtMostOneNoticePerDescent(cfg: WorkerConfig, w: WorkerState, sizes: seq<int>)
    requires |sizes| > 0
    requires forall i :: 0 <= i < |sizes| ==> sizes[i] <= cfg.threshold
    ensures CheckRun(cfg, w, sizes).1 == CheckQueueState(cfg, w, sizes[0]).1
  {
    var w1 := CheckQueueState(cfg, w, sizes[0]).0;
    if cfg.hasNotifier {
      QuietWhileLow(cfg, w1, sizes[1..]);
    } else {
      NoNotifierNoEvents(cfg, w1, sizes[1..]);
    }
  }

  /** Without a notifier the checks neither send nor remember anything. */
  lemma {:induction false} NoNotifierNoEvents(cfg: WorkerConfig, w: WorkerState, sizes: seq<int>)
    requires !cfg.hasNotifier
    ensures CheckRun(cfg, w, sizes) == (w, [])
    decreases |sizes|
  {
    if |sizes| > 0 {
      var first := CheckQueueState(cfg, w, sizes[0]);
      assert first.0 == w && first.1 == [];
      NoNotifierNoEvents(cfg, w, sizes[1..]);
      var rest := CheckRun(cfg, w, sizes[1..]);
      assert CheckRun(cfg, w, sizes).1 == first.1 + rest.1 == [];
    }
  }

  // --------------------------------------------------------- the script

  /** What running the script turned out to be: the file was missing,
      launching it raised, or it ran and exited with a code. */
  datatype Launch =
    | Missing
    | Raised(message: string)
    | Exited(code: int, stdout: string, stderr: string)

  /** `_execute_script`'s result dictionary: a missing file or a launch
      error yields exit code -1 with the error text and no output; an exit
      yields the code and both outputs. Task id and path are always set. */
  function ScriptResultOf(t: Task, launch: Launch): (r: ScriptResult)
    ensures r.taskId == Some(t.taskId) && r.scriptPath == Some(t.scriptPath)
    ensures r.exitCode.Some?
    ensures r.error.Some? <==> !launch.Exited?
    ensures launch.Exited? ==>
      r.exitCode == Some(launch.code) && r.stdout == Some(launch.stdout) && r.stderr == Some(launch.stderr)
    ensures !launch.Exited? ==> r.exitCode == Some(-1) && r.stdout.None? && r.stderr.None?
    ensures launch.Missing? ==> r.error == Some("Script not found: " + t.scriptPath)
    ensures launch.Raised? ==> r.error == Some(launch.message)
  {
    match launch
    case Missing =>
      ScriptResult(Some(t.taskId), Some(t.scriptPath), Some(-1), None, None, Some("Script not found: " + t.scriptPath))
    case Raised(m) =>
      ScriptResult(Some(t.taskId), Some(t.scriptPath), Some(-1), None, None, Some(m))
    case Exited(code, out, err) =>
      ScriptResult(Some(t.taskId), Some(t.scriptPath), Some(code), Some(out), Some(err), None)
  }

  /** `result.get("exit_code", -1) == 0`. */
  predicate IsSuccess(r: ScriptResult) {
    r.exitCode.GetOr(-1) == 0
  }

  /** A run succeeds exactly when the script ran and exited with 0. */
  lemma SuccessIffExitZero(t: Task, launch: Launch)
    ensures IsSuccess(ScriptResultOf(t, launch)) <==> launch.Exited? && launch.code == 0
  {
  }

  // ------------------------------------------------------ one iteration

  /** Where an iteration (or half of one) stops. Every case carries the
      worker, the store and the events so far. */
  datatype Step =
    | Faulted(w: WorkerState, qs: QueueState, events: seq<Event>, fault: Fault)
    | Idle(w: WorkerState, qs: QueueState, events: seq<Event>)
    | Started(w: WorkerState, qs: QueueState, events: seq<Event>, task: Task)
    | Finished(w: WorkerState, qs: QueueState, events: seq<Event>)

  /** The first half of an iteration: check the queue, take the next task
      (a refusal is caught, an empty queue ends the iteration), hold it,
      call the start callback with it, then start it. The task object is
      shared with the active map, so the store sees it Running. */
  function Begin(cfg: WorkerConfig, w: WorkerState, qs: QueueState, now: Time): (r: Step)
    ensures !r.Finished?
    ensures CheckQueueState(cfg, w, |qs.queue|).1 <= r.events
    ensures r.Faulted? <==> |qs.active| != 0
    ensures r.Faulted? ==> r.qs == qs && r.w.current == w.current
    ensures r.Idle? <==> |qs.active| == 0 && |qs.queue| == 0
    ensures r.Idle? ==> r.qs == qs && r.w.current == w.current
    ensures r.Started? ==>
      && r.task.taskId == qs.queue[0].task.taskId
      && r.task == Start(qs.queue[0].task, now)
      && r.w.current == Some(r.task.taskId)
      && r.qs.queue == qs.queue[1..]
      && r.qs.active == map[r.task.taskId := r.task]
      && r.qs.completed == qs.completed && r.qs.history == qs.history
      && r.qs.unfinished == qs.unfinished
      && r.events == CheckQueueState(cfg, w, |qs.queue|).1 + (if cfg.hasStartHook then [StartHook(qs.queue[0].task)] else [])
  {
    var (w1, notices) := CheckQueueState(cfg, w, |qs.queue|);
    match GetNextTask(qs)
    case Err(f) => Faulted(w1, qs, notices, f)
    case Ok((qs1, None)) => Idle(w1, qs1, notices)
    case Ok((qs1, Some(t))) =>
      var hook := if cfg.hasStartHook then [StartHook(t)] else [];
      var running := Start(t, now);
      Started(w1.(current := Some(t.taskId)), qs1.(active := qs1.active[t.taskId := running]),
              notices + hook, running)
  }

  /** The second half: shape the result, send the failure notice if one is
      due, commit the result, call the completion callback with the task as
      committed, and count the entry done; only then is the held task
      released. A failing `task_done` is caught and leaves the task held. */
  function Finish(cfg: WorkerConfig, w: WorkerState, qs: QueueState, t: Task, launch: Launch, now: Time): (r: Step)
    ensures r.Faulted? || r.Finished?
    ensures r.Finished? ==> r.w == w.(current := None)
    ensures r.Faulted? ==> r.w == w
  {
    var result := ScriptResultOf(t, launch);
    var success := IsSuccess(result);
    var notice := if !success && cfg.notifyOnFailure && cfg.hasNotifier then [TaskFailed(result)] else [];
    match MarkTaskComplete(qs, t.taskId, result, success, now)
    case Err(f) => Faulted(w, qs, notice, f)
    case Ok(qs1) =>
      var committed := if t.taskId in qs.active then qs1.completed[t.taskId] else t;
      var hook := if cfg.hasCompleteHook then [CompleteHook(committed)] else [];
      var events := notice + [Committed(t.taskId)] + hook;
      match TaskDone(qs1)
      case Err(f) => Faulted(w, qs1, events, f)
      case Ok(qs2) => Finished(w.(current := None), qs2, events)
  }

  /** One pass of `_worker_loop`: `start` is when the task is started and
      `end` when its result is committed. */
  function Iterate(cfg: WorkerConfig, w: WorkerState, qs: QueueState, launch: Launch, start: Time, end: Time): (r: Step)
    ensures !r.Started?
  {
    var b := Begin(cfg, w, qs, start);
    if b.Started? then After(b.events, Finish(cfg, b.w, b.qs, b.task, launch, end)) else b
  }

  /** The step `s` with the events `pre` emitted before its own. */
  function After(pre: seq<Event>, s: Step): (r: Step)
    ensures r.events == pre + s.events
    ensures r.w == s.w && r.qs == s.qs
    ensures r.Faulted? == s.Faulted? && r.Idle? == s.Idle? && r.Finished? == s.Finished?
    ensures r.Faulted? ==> r.fault == s.fault
  {
    match s
    case Faulted(w, qs, events, fault) => Faulted(w, qs, pre + events, fault)
    case Idle(w, qs, events) => Idle(w, qs, pre + events)
    case Started(w, qs, events, task) => Started(w, qs, pre + events, task)
    case Finished(w, qs, events) => Finished(w, qs, pre + events)
  }

  // ---------------------------------------------------------- properties

  /** With nothing queued and nothing active an iteration leaves the store
      and the held task alone. */
  lemma IdleIterationChangesNothing(cfg: WorkerConfig, w: WorkerState, qs: QueueState, launch: Launch, start: Time, end: Time)
    requires |qs.queue| == 0 && |qs.active| == 0
    ensures Iterate(cfg, w, qs, launch, start, end).Idle?
    ensures Iterate(cfg, w, qs, launch, start, end).qs == qs
    ensures Iterate(cfg, w, qs, launch, start, end).w.current == w.current
  {
  }

  /** The failure notice goes out exactly when the run failed and the worker
      reports failures, and it goes out before the result is committed. */
  lemma FailureNoticeBeforeCommit(cfg: WorkerConfig, w: WorkerState, qs: QueueState, t: Task, launch: Launch, now: Time)
    requires t.taskId in qs.active
    ensures var r := Finish(cfg, w, qs, t, launch, now);
      var failed := !(launch.Exited? && launch.code == 0) && cfg.notifyOnFailure && cfg.hasNotifier;
      && |r.events| >= 1
      && (failed <==> r.events[0] == TaskFailed(ScriptResultOf(t, launch)))
      && r.events[if failed then 1 else 0] == Committed(t.taskId)
  {
    SuccessIffExitZero(t, launch);
  }

  /** The state a completed iteration leaves: the head of the queue has
      been run and committed, nothing is active, the worker holds nothing,
      and the counter again matches the pending entries. */
  lemma {:induction false} IterationRunsHead(cfg: WorkerConfig, w: WorkerState, qs: QueueState, launch: Launch, start: Time, end: Time)
    requires CounterInv(qs) && KeyedById(qs.active)
    requires |qs.active| == 0 && |qs.queue| > 0
    ensures var r := Iterate(cfg, w, qs, launch, start, end);
      var head := qs.queue[0].task;
      && r.Finished?
      && r.w.current.None?
      && r.qs.queue == qs.queue[1..]
      && r.qs.active == map[]
      && head.taskId in r.qs.completed
      && SameIdentity(r.qs.completed[head.taskId], head)
      && r.qs.completed[head.taskId].startedAt == Some(start)
      && r.qs.completed[head.taskId].completedAt == Some(end)
      && CounterInv(r.qs)
  {
    var b := Begin(cfg, w, qs, start);
    var t := b.task;
    var result := ScriptResultOf(t, launch);
    var m := MarkTaskComplete(b.qs, t.taskId, result, IsSuccess(result), end);
    assert m.Ok?;
    assert m.value.active == map[];
    assert m.value.unfinished == |m.value.queue| + 1;
  }

  /** How the committed status follows from the run: exit 0 completes,
      -15 cancels (the signal `abort` sends), anything else — including a
      missing script or a launch error — fails. */
  lemma IterationOutcome(cfg: WorkerConfig, w: WorkerState, qs: QueueState, launch: Launch, start: Time, end: Time)
    requires |qs.active| == 0 && |qs.queue| > 0
    ensures var r := Iterate(cfg, w, qs, launch, start, end);
      var id := qs.queue[0].task.taskId;
      && id in r.qs.completed
      && (r.qs.completed[id].status == Completed <==> launch.Exited? && launch.code == 0)
      && (r.qs.completed[id].status == Canceled <==> launch.Exited? && launch.code == -15)
      && (r.qs.completed[id].status == Failed <==> !(launch.Exited? && (launch.code == 0 || launch.code == -15)))
      && (r.qs.completed[id].status != Canceled ==> r.qs.completed[id].result == Some(ScriptResultOf(Start(qs.queue[0].task, start), launch)))
  {
    var b := Begin(cfg, w, qs, start);
    SuccessIffExitZero(b.task, launch);
  }

  /** The events of an iteration that takes a task, in order: the queue
      check's notices, the start callback with the task, the failure notice
      when one is due, the commit, and the completion callback with the task
      as committed. */
  lemma IterationEvents(cfg: WorkerConfig, w: WorkerState, qs: QueueState, launch: Launch, start: Time, end: Time)
    requires |qs.active| == 0 && |qs.queue| > 0
    ensures var r := Iterate(cfg, w, qs, launch, start, end);
      var head := qs.queue[0].task;
      var result := ScriptResultOf(Start(head, start), launch);
      var failed := !(launch.Exited? && launch.code == 0) && cfg.notifyOnFailure && cfg.hasNotifier;
      && head.taskId in r.qs.completed
      && r.events == CheckQueueState(cfg, w, |qs.queue|).1
           + (if cfg.hasStartHook then [StartHook(head)] else [])
           + (if failed then [TaskFailed(result)] else [])
           + [Committed(head.taskId)]
           + (if cfg.hasCompleteHook then [CompleteHook(r.qs.completed[head.taskId])] else [])
  {
    var b := Begin(cfg, w, qs, start);
    var f := Finish(cfg, b.w, b.qs, b.task, launch, end);
    assert Iterate(cfg, w, qs, launch, start, end) == After(b.events, f);
    FinishEvents(cfg, b.w, b.qs, b.task, launch, end);
  }

  /** The events of the second half: the failure notice when one is due,
      the commit, and the completion callback with the task as committed. */
  lemma FinishEvents(cfg: WorkerConfig, w: WorkerState, qs: QueueState, t: Task, launch: Launch, now: Time)
    requires t.taskId in qs.active
    ensures var r := Finish(cfg, w, qs, t, launch, now);
      var result := ScriptResultOf(t, launch);
      var failed := !(launch.Exited? && launch.code == 0) && cfg.notifyOnFailure && cfg.hasNotifier;
      && t.taskId in r.qs.completed
      && r.events == (if failed then [TaskFailed(result)] else [])
           + [Committed(t.taskId)]
           + (if cfg.hasCompleteHook then [CompleteHook(r.qs.completed[t.taskId])] else [])
  {
    SuccessIffExitZero(t, launch);
  }

  /** Taking and starting a task keeps the store's invariant. */
  lemma BeginKeepsInv(cfg: WorkerConfig, w: WorkerState, qs: QueueState, start: Time)
    requires Inv(qs)
    ensures Inv(Begin(cfg, w, qs, start).qs)
  {
    if GetNextTask(qs).Ok? {
      GetNextKeepsInv(qs);
      if |qs.queue| > 0 {
        assert qs.queue[0] in qs.queue;
        assert Lifecycle(qs.queue[0].task);
      }
    }
  }

  /** Committing a result keeps the store's invariant. */
  lemma FinishKeepsInv(cfg: WorkerConfig, w: WorkerState, qs: QueueState, t: Task, launch: Launch, now: Time)
    requires Inv(qs)
    ensures Inv(Finish(cfg, w, qs, t, launch, now).qs)
  {
    var result := ScriptResultOf(t, launch);
    if MarkTaskComplete(qs, t.taskId, result, IsSuccess(result), now).Ok? {
      MarkCompleteKeepsInv(qs, t.taskId, result, IsSuccess(result), now);
    }
  }

  /** A whole iteration keeps the store's invariant. */
  lemma IterationKeepsInv(cfg: WorkerConfig, w: WorkerState, qs: QueueState, launch: Launch, start: Time, end: Time)
    requires Inv(qs)
    ensures Inv(Iterate(cfg, w, qs, launch, start, end).qs)
  {
    var b := Begin(cfg, w, qs, start);
    BeginKeepsInv(cfg, w, qs, start);
    if b.Started? {
      FinishKeepsInv(cfg, b.w, b.qs, b.task, launch, end);
    }
  }

  // ------------------------------------------------------------ finding

  /** Committing when the counter is exhausted: the result is stored, but
      `task_done` raises and the worker keeps holding the task. */
  lemma FinishWithExhaustedCounter(cfg: WorkerConfig, w: WorkerState, qs: QueueState, t: Task, launch: Launch, now: Time)
    requires t.taskId in qs.active && qs.unfinished < 1
    ensures var f := Finish(cfg, w, qs, t, launch, now);
      f.Faulted? && f.fault.ValueError? && f.w == w && t.taskId in f.qs.completed
  {
  }

  /** An abort between the halves, as the source writes it: when every
      queued entry is aborted while the worker holds a task, the rebuilt
      queue's counter is zero, so the worker's `task_done` raises, the
      fault is caught and the worker keeps holding a task that is already
      committed. */
  lemma AbortAsWrittenStrandsWorker(cfg: WorkerConfig, w: WorkerState, qs: QueueState, id: string,
                                    launch: Launch, start: Time, now: Time, end: Time)
    requires CounterInv(qs) && |qs.active| == 0 && |qs.queue| > 1
    requires qs.queue[0].task.taskId != id
    requires forall i :: 1 <= i < |qs.queue| ==> qs.queue[i].task.taskId == id
    ensures var b := Begin(cfg, w, qs, start);
      var a := AbortTaskByIdAsWritten(b.qs, id, now);
      var f := Finish(cfg, b.w, a.s, b.task, launch, end);
      && b.Started? && a.Returns? && a.value
      && f.Faulted? && f.fault.ValueError?
      && f.w.current == Some(qs.queue[0].task.taskId)
      && qs.queue[0].task.taskId in f.qs.completed
  {
    var b := Begin(cfg, w, qs, start);
    assert b.Started?;
    var rest := b.qs.queue;
    assert forall i :: 0 <= i < |rest| ==> rest[i].task.taskId == id by {
      forall i | 0 <= i < |rest| ensures rest[i].task.taskId == id {
        assert rest[i] == qs.queue[i + 1];
      }
    }
    AbortAllAsWritten(b.qs, id, now);
    var a := AbortTaskByIdAsWritten(b.qs, id, now);
    FinishWithExhaustedCounter(cfg, b.w, a.s, b.task, launch, end);
  }

  /** The same interleaving with the corrected abort: the counter still
      counts the held task, so the iteration finishes and the worker lets
      go of it. */
  lemma AbortCorrectedReleasesWorker(cfg: WorkerConfig, w: WorkerState, qs: QueueState, id: string,
                                     launch: Launch, start: Time, now: Time, end: Time)
    requires CounterInv(qs) && |qs.active| == 0 && |qs.queue| > 0
    requires qs.queue[0].task.taskId != id
    ensures var b := Begin(cfg, w, qs, start);
      var a := AbortTaskById(b.qs, id, now);
      var f := Finish(cfg, b.w, a.s, b.task, launch, end);
      && b.Started? && a.Returns?
      && f.Finished? && f.w.current.None?
      && CounterInv(f.qs)
  {
    var b := Begin(cfg, w, qs, start);
    var a := AbortTaskById(b.qs, id, now);
    assert CounterInv(a.s);
    var result := ScriptResultOf(b.task, launch);
    var m := MarkTaskComplete(a.s, b.task.taskId, result, IsSuccess(result), end);
    assert m.Ok?;
    assert m.value.unfinished == |m.value.queue| + 1;
  }

  /** The abort by path as the source writes it returns only when no
      queued entry has the path. Called while the worker holds the only
      task, it returns 0 with the counter zeroed, so the worker's
      `task_done` raises and the worker keeps holding the committed task. */
  lemma PathAbortAsWrittenStrandsWorker(cfg: WorkerConfig, w: WorkerState, qs: QueueState, path: string,
                                        launch: Launch, start: Time, now: Time, end: Time)
    requires CounterInv(qs) && |qs.active| == 0 && |qs.queue| == 1
    ensures var b := Begin(cfg, w, qs, start);
      var a := AbortTasksByPathAsWritten(b.qs, path, now);
      var f := Finish(cfg, b.w, a.s, b.task, launch, end);
      && b.Started? && a.Returns? && a.value.0 == 0
      && f.Faulted? && f.fault.ValueError?
      && f.w.current == Some(qs.queue[0].task.taskId)
  {
    var b := Begin(cfg, w, qs, start);
    var a := AbortTasksByPathAsWritten(b.qs, path, now);
    assert b.qs.queue == [];
    FinishWithExhaustedCounter(cfg, b.w, a.s, b.task, launch, end);
  }

  /** After an abort by id as the source writes it, a worker whose
      `task_done` still succeeds (another entry is pending) leaves the
      counter one below the pending entries, and clearing the queue then
      drains every entry and raises ValueError on the last one. After the
      corrected abort the clear returns. */
  lemma AbortAsWrittenBreaksClear(cfg: WorkerConfig, w: WorkerState, qs: QueueState, id: string,
                                  launch: Launch, start: Time, now: Time, end: Time)
    requires CounterInv(qs) && |qs.active| == 0 && |qs.queue| > 1
    requires qs.queue[0].task.taskId != id
    requires exists i :: 1 <= i < |qs.queue| && qs.queue[i].task.taskId != id
    ensures var b := Begin(cfg, w, qs, start);
      var a := AbortTaskByIdAsWritten(b.qs, id, now);
      var f := Finish(cfg, b.w, a.s, b.task, launch, end);
      && b.Started? && a.Returns? && f.Finished?
      && f.qs.unfinished == |f.qs.queue| - 1
      && ClearQueue(f.qs).Raises? && ClearQueue(f.qs).fault == ValueError(TaskDoneTooMany)
      && ClearQueue(f.qs).s.queue == []
    ensures var b := Begin(cfg, w, qs, start);
      var a := AbortTaskById(b.qs, id, now);
      ClearQueue(Finish(cfg, b.w, a.s, b.task, launch, end).qs).Returns?
  {
    var b := Begin(cfg, w, qs, start);
    var i :| 1 <= i < |qs.queue| && qs.queue[i].task.taskId != id;
    assert b.qs.queue[i - 1] == qs.queue[i];
    AbortByIdQueue(b.qs, id, now);
    var a := AbortTaskByIdAsWritten(b.qs, id, now);
    assert qs.queue[i] in a.s.queue;
    var result := ScriptResultOf(b.task, launch);
    var m := MarkTaskComplete(a.s, b.task.taskId, result, IsSuccess(result), end);
    assert m.Ok? && m.value.queue == a.s.queue;
    AbortCorrectedReleasesWorker(cfg, w, qs, id, launch, start, now, end);
  }

  /** A concrete instance: A then B submitted, the worker takes A, B is
      aborted by id as the source writes it, and the worker is stranded
      holding A; with the corrected abort it is released. */
  lemma TwoTaskScenario(a: Task, b: Task, launch: Launch)
    requires a.taskId == "A" && b.taskId == "B"
    requires !a.priority && !b.priority
    ensures var qs := AddTask(AddTask(Init(), a), b);
      var cfg := DefaultWorkerConfig(false);
      var s := Begin(cfg, Fresh, qs, 1);
      && s.Started? && s.task.taskId == "A"
      && Finish(cfg, s.w, AbortTaskByIdAsWritten(s.qs, "B", 2).s, s.task, launch, 3).Faulted?
      && Finish(cfg, s.w, AbortTaskByIdAsWritten(s.qs, "B", 2).s, s.task, launch, 3).w.current == Some("A")
      && Finish(cfg, s.w, AbortTaskById(s.qs, "B", 2).s, s.task, launch, 3).Finished?
  {
    var qs0 := Init();
    var qs1 := AddTask(qs0, a);
    var qs := AddTask(qs1, b);
    assert |qs1.queue| == 1 && qs1.queue[0].task == a;
    assert qs1.queue[0].cls == 1 && qs1.queue[0].seqNo < qs1.nextSeq by {
      assert qs1.queue[0] in multiset(qs1.queue);
    }
    InsertAtPos(qs1.queue, Entry(ClassOf(b.priority), qs1.nextSeq, b));
    assert qs.queue == qs1.queue + [Entry(1, qs1.nextSeq, b)];
    assert CounterInv(qs);
    AbortAsWrittenStrandsWorker(DefaultWorkerConfig(false), Fresh, qs, "B", launch, 1, 2, 3);
    AbortCorrectedReleasesWorker(DefaultWorkerConfig(false), Fresh, qs, "B", launch, 1, 2, 3);
  }
}
