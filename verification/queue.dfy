/** The queue store (`QueueManager`): a pending queue ordered by
    (priority class, arrival), the active and completed maps, the bounded
    id history, and the pending queue's unfinished-task counter. Each
    method is one atomic transition over `QueueState`; the lock that makes
    it atomic in Python is implicit. */
module Queue {
  import opened Wrappers
  import opened Tasks

  /** `_max_history`. */
  const MaxHistory: nat := 1000

  const ActiveTasksPresent: string := "Cannot get next task when active tasks are present."

  /** The message of the ValueError `task_done` raises on a spent counter. */
  const TaskDoneTooMany: string := "task_done() called too many times"

  /** The notifier method `abort_tasks_by_path` calls for each match. */
  const AbortNotice: string := "send_task_aborted_notification"

  /** The exceptions a queue-store call can raise. */
  datatype Fault =
    | AssertionError(message: string)   // `assert` in `get_next_task`
    | KeyError(key: string)             // `result["exit_code"]` on a dict without that key
    | ValueError(message: string)       // `task_done()` called too many times
    | AttributeError(name: string)      // a method the notifier does not define

  /** How a store call ended: it returned a value or raised a fault, with
      the store as the call left it either way (the lock is released on
      both paths). */
  datatype Call<T> = Returns(value: T, s: QueueState) | Raises(fault: Fault, s: QueueState)

  /** The priority class of the tuple key: 0 for priority tasks, 1 otherwise. */
  function ClassOf(priority: bool): nat {
    if priority then 0 else 1
  }

  /** One `(priority, timestamp, task)` tuple of the `PriorityQueue`; the
      timestamp becomes an arrival sequence number. */
  datatype Entry = Entry(cls: nat, seqNo: nat, task: Task)

  /** The tuple order on keys: class first, then arrival. */
  predicate KeyLess(a: Entry, b: Entry) {
    a.cls < b.cls || (a.cls == b.cls && a.seqNo < b.seqNo)
  }

  /** The pending queue listed in the order `get` hands entries out. */
  ghost predicate Sorted(q: seq<Entry>) {
    forall i, j :: 0 <= i < j < |q| ==> KeyLess(q[i], q[j])
  }

  datatype QueueState = QueueState(
    queue: seq<Entry>,
    active: map<string, Task>,
    completed: map<string, Task>,
    history: seq<string>,
    nextSeq: nat,
    unfinished: int)

  /** `QueueManager()`. */
  function Init(): (s: QueueState)
    ensures Inv(s) && CounterInv(s)
  {
    QueueState([], map[], map[], [], 0, 0)
  }

  /** Shape of the pending queue: sorted, each entry in its task's class,
      every arrival number already handed out. */
  ghost predicate QueueShape(s: QueueState) {
    && Sorted(s.queue)
    && forall i :: 0 <= i < |s.queue| ==>
         s.queue[i].cls == ClassOf(s.queue[i].task.priority) && s.queue[i].seqNo < s.nextSeq
  }

  /** Each map is keyed by its tasks' ids. */
  ghost predicate KeyedById(m: map<string, Task>) {
    forall k :: k in m ==> m[k].taskId == k
  }

  /** Pending tasks have not started. */
  ghost predicate PendingQueued(q: seq<Entry>) {
    forall i :: 0 <= i < |q| ==> q[i].task.status == Queued && Lifecycle(q[i].task)
  }

  /** Active tasks are Queued (just dequeued) or Running. */
  ghost predicate ActiveLive(m: map<string, Task>) {
    forall k :: k in m ==> (m[k].status == Queued || m[k].status == Running) && Lifecycle(m[k])
  }

  /** Completed tasks are in a terminal status. */
  ghost predicate CompletedTerminal(m: map<string, Task>) {
    forall k :: k in m ==> IsTerminal(m[k].status) && Lifecycle(m[k])
  }

  /** The store's invariant: queue shape, single flight (at most one active
      task), pending tasks Queued, active tasks Queued or Running, completed
      tasks terminal, maps keyed by task id, history bounded. */
  ghost predicate Inv(s: QueueState) {
    && QueueShape(s)
    && PendingQueued(s.queue)
    && |s.active| <= 1
    && KeyedById(s.active) && KeyedById(s.completed)
    && ActiveLive(s.active)
    && CompletedTerminal(s.completed)
    && |s.history| <= MaxHistory
  }

  /** The unfinished-task counter counts every entry put and not yet marked
      done: the pending ones plus the one the worker holds. */
  ghost predicate CounterInv(s: QueueState) {
    s.unfinished == |s.queue| + |s.active|
  }

  // ------------------------------------------------------------ ordering

  /** Prepending a key smaller than every key of a sorted queue keeps it sorted. */
  lemma SortedCons(x: Entry, q: seq<Entry>)
    requires Sorted(q)
    requires forall y :: y in q ==> KeyLess(x, y)
    ensures Sorted([x] + q)
  {
    var r := [x] + q;
    forall i, j | 0 <= i < j < |r| ensures KeyLess(r[i], r[j]) {
      if i == 0 {
        assert r[j] == q[j - 1];
        assert r[j] in q;
      } else {
        assert r[i] == q[i - 1] && r[j] == q[j - 1];
      }
    }
  }

  /** Ordered insertion into the pending queue. */
  function Insert(q: seq<Entry>, e: Entry): (r: seq<Entry>)
    ensures |r| == |q| + 1
    ensures e in r
    ensures forall x :: x in r ==> x == e || x in q
    decreases |q|
  {
    if |q| == 0 then [e]
    else if KeyLess(e, q[0]) then [e] + q
    else
      assert q == [q[0]] + q[1..];
      [q[0]] + Insert(q[1..], e)
  }

  /** Insertion keeps a queue sorted when the new key differs from every
      queued key. */
  lemma {:induction false} InsertSorted(q: seq<Entry>, e: Entry)
    requires Sorted(q)
    requires forall x :: x in q ==> KeyLess(x, e) || KeyLess(e, x)
    ensures Sorted(Insert(q, e))
    decreases |q|
  {
    if |q| > 0 {
      if KeyLess(e, q[0]) {
        forall y | y in q ensures KeyLess(e, y) {
          var j :| 0 <= j < |q| && q[j] == y;
          if j > 0 { assert KeyLess(q[0], q[j]); }
        }
        SortedCons(e, q);
      } else {
        var tail := q[1..];
        assert Sorted(tail) by {
          forall i, j | 0 <= i < j < |tail| ensures KeyLess(tail[i], tail[j]) {
            assert tail[i] == q[i + 1] && tail[j] == q[j + 1];
          }
        }
        forall x | x in tail ensures KeyLess(x, e) || KeyLess(e, x) {
          assert x in q;
        }
        InsertSorted(tail, e);
        var rest := Insert(tail, e);
        forall y | y in rest ensures KeyLess(q[0], y) {
          if y != e {
            var j :| 0 <= j < |tail| && tail[j] == y;
            assert KeyLess(q[0], q[j + 1]);
          } else {
            assert q[0] in q;
          }
        }
        SortedCons(q[0], rest);
      }
    }
  }

  /** Where `Insert` puts `e`: after every entry it does not precede. */
  function InsertPos(q: seq<Entry>, e: Entry): (k: nat)
    ensures k <= |q|
    ensures forall i :: 0 <= i < k ==> !KeyLess(e, q[i])
    ensures k < |q| ==> KeyLess(e, q[k])
    decreases |q|
  {
    if |q| == 0 || KeyLess(e, q[0]) then 0
    else
      var k := InsertPos(q[1..], e);
      assert forall i :: 1 <= i < k + 1 ==> q[i] == q[1..][i - 1];
      k + 1
  }

  lemma {:induction false} InsertAtPos(q: seq<Entry>, e: Entry)
    ensures Insert(q, e) == q[..InsertPos(q, e)] + [e] + q[InsertPos(q, e)..]
    decreases |q|
  {
    if |q| == 0 {
      assert Insert(q, e) == [e];
    } else if KeyLess(e, q[0]) {
      assert InsertPos(q, e) == 0 && q[..0] == [] && q[0..] == q;
    } else {
      var t := q[1..];
      var k := InsertPos(t, e);
      assert InsertPos(q, e) == k + 1;
      calc {
        Insert(q, e);
        [q[0]] + Insert(t, e);
        { InsertAtPos(t, e); }
        [q[0]] + (t[..k] + [e] + t[k..]);
        { SplitAfterHead(q, k); }
        q[..k + 1] + [e] + q[k + 1..];
      }
    }
  }

  /** Cutting the tail of `q` after `k` entries is cutting `q` after `k + 1`. */
  lemma SplitAfterHead(q: seq<Entry>, k: nat)
    requires k < |q|
    ensures forall e :: [q[0]] + (q[1..][..k] + [e] + q[1..][k..]) == q[..k + 1] + [e] + q[k + 1..]
  {
    forall e ensures [q[0]] + (q[1..][..k] + [e] + q[1..][k..]) == q[..k + 1] + [e] + q[k + 1..] {
      assert q[..k + 1] == [q[0]] + q[1..][..k];
      assert q[k + 1..] == q[1..][k..];
    }
  }

  /** Insertion adds exactly one entry: the queue's contents grow by `e`. */
  lemma InsertMultiset(q: seq<Entry>, e: Entry)
    ensures multiset(Insert(q, e)) == multiset(q) + multiset{e}
  {
    var k := InsertPos(q, e);
    InsertAtPos(q, e);
    var a, b := q[..k], q[k..];
    assert q == a + b;
    assert multiset(a + [e] + b) == multiset(a) + multiset{e} + multiset(b);
  }

  /** The entries of class `c`, in queue order. */
  function InClass(q: seq<Entry>, c: nat): (r: seq<Entry>)
    ensures forall i :: 0 <= i < |r| ==> r[i].cls == c
  {
    if |q| == 0 then [] else (if q[0].cls == c then [q[0]] else []) + InClass(q[1..], c)
  }

  lemma {:induction false} InClassConcat(a: seq<Entry>, b: seq<Entry>, c: nat)
    ensures InClass(a + b, c) == InClass(a, c) + InClass(b, c)
    decreases |a|
  {
    if |a| > 0 {
      assert (a + b)[0] == a[0];
      assert (a + b)[1..] == a[1..] + b;
      InClassConcat(a[1..], b, c);
      var h := if a[0].cls == c then [a[0]] else [];
      calc {
        InClass(a + b, c);
        h + InClass(a[1..] + b, c);
        h + (InClass(a[1..], c) + InClass(b, c));
        (h + InClass(a[1..], c)) + InClass(b, c);
        InClass(a, c) + InClass(b, c);
      }
    } else {
      assert a + b == b;
    }
  }

  lemma {:induction false} InClassNone(q: seq<Entry>, c: nat)
    requires forall i :: 0 <= i < |q| ==> q[i].cls != c
    ensures InClass(q, c) == []
    decreases |q|
  {
    if |q| > 0 {
      InClassNone(q[1..], c);
    }
  }

  lemma {:induction false} InClassAll(q: seq<Entry>, c: nat)
    requires forall i :: 0 <= i < |q| ==> q[i].cls == c
    ensures InClass(q, c) == q
    decreases |q|
  {
    if |q| > 0 {
      InClassAll(q[1..], c);
    }
  }

  /** A sorted queue of classes 0 and 1 is its priority entries followed by
      its normal entries. */
  lemma {:induction false} SortedSplitsByClass(q: seq<Entry>)
    requires Sorted(q)
    requires forall i :: 0 <= i < |q| ==> q[i].cls <= 1
    ensures q == InClass(q, 0) + InClass(q, 1)
    decreases |q|
  {
    if |q| > 0 {
      if q[0].cls == 0 {
        SortedSplitsByClass(q[1..]);
        assert q == [q[0]] + q[1..];
      } else {
        assert forall i :: 0 <= i < |q| ==> q[i].cls == 1 by {
          forall i | 0 < i < |q| ensures q[i].cls == 1 {
            assert KeyLess(q[0], q[i]);
          }
        }
        InClassNone(q, 0);
        InClassAll(q, 1);
      }
    }
  }

  /** Past its insertion point, a fresh entry meets only entries of a
      higher class. */
  lemma AfterInsertPos(q: seq<Entry>, e: Entry)
    requires Sorted(q)
    requires forall i :: 0 <= i < |q| ==> q[i].seqNo < e.seqNo
    ensures forall i :: InsertPos(q, e) <= i < |q| ==> q[i].cls > e.cls
  {
    var k := InsertPos(q, e);
    forall i | k <= i < |q| ensures q[i].cls > e.cls {
      if k < i { assert KeyLess(q[k], q[i]); }
    }
  }

  /** Inserting an entry that arrived after every queued one appends it to
      its own class and leaves the other class alone. */
  lemma InsertFreshInClass(q: seq<Entry>, e: Entry, c: nat)
    requires Sorted(q)
    requires forall i :: 0 <= i < |q| ==> q[i].seqNo < e.seqNo
    ensures InClass(Insert(q, e), c) == InClass(q, c) + (if e.cls == c then [e] else [])
  {
    AfterInsertPos(q, e);
    InsertAtPos(q, e);
    SplitInClass(q, e, InsertPos(q, e), c);
  }

  /** Class filtering of `q` with `e` placed at `k`, when no later entry
      shares `e`'s class. */
  lemma SplitInClass(q: seq<Entry>, e: Entry, k: nat, c: nat)
    requires k <= |q|
    requires forall i :: k <= i < |q| ==> q[i].cls > e.cls
    ensures InClass(q[..k] + [e] + q[k..], c) == InClass(q, c) + (if e.cls == c then [e] else [])
  {
    var a := q[..k];
    var b := q[k..];
    assert q == a + b;
    InClassConcat(a, b, c);
    InClassConcat(a + [e], b, c);
    InClassConcat(a, [e], c);
    assert InClass([e], c) == (if e.cls == c then [e] else []) by {
      assert [e][1..] == [];
    }
    if e.cls == c {
      InClassNoneFrom(q, k, c);
    }
  }

  lemma InClassNoneFrom(q: seq<Entry>, k: nat, c: nat)
    requires k <= |q|
    requires forall i :: k <= i < |q| ==> q[i].cls != c
    ensures InClass(q[k..], c) == []
  {
    var b := q[k..];
    assert forall i :: 0 <= i < |b| ==> b[i] == q[k + i];
    InClassNone(b, c);
  }

  // ------------------------------------------------------------ add_task

  /** `add_task`: queue the task behind every entry with a smaller key,
      append its id to the history, and when the history grows past the
      bound drop its oldest id together with that id's completed entry. */
  function AddTask(s: QueueState, t: Task): (r: QueueState)
    ensures |r.queue| == |s.queue| + 1
    ensures multiset(r.queue) == multiset(s.queue) + multiset{Entry(ClassOf(t.priority), s.nextSeq, t)}
    ensures r.active == s.active
    ensures r.nextSeq == s.nextSeq + 1 && r.unfinished == s.unfinished + 1
    ensures |s.history| + 1 <= MaxHistory ==>
      r.history == s.history + [t.taskId] && r.completed == s.completed
    ensures |s.history| + 1 > MaxHistory ==>
      r.history == s.history[1..] + [t.taskId] && r.completed == s.completed - {s.history[0]}
    ensures CounterInv(s) ==> CounterInv(r)
  {
    var e := Entry(ClassOf(t.priority), s.nextSeq, t);
    var h := s.history + [t.taskId];
    var q := Insert(s.queue, e);
    InsertMultiset(s.queue, e);
    if |h| > MaxHistory then
      QueueState(q, s.active, s.completed - {h[0]}, h[1..], s.nextSeq + 1, s.unfinished + 1)
    else
      QueueState(q, s.active, s.completed, h, s.nextSeq + 1, s.unfinished + 1)
  }

  /** Submission keeps the pending queue sorted with fresh arrival numbers. */
  lemma AddTaskKeepsShape(s: QueueState, t: Task)
    requires QueueShape(s)
    ensures QueueShape(AddTask(s, t))
  {
    var e := Entry(ClassOf(t.priority), s.nextSeq, t);
    var q := AddTask(s, t).queue;
    forall x | x in s.queue ensures KeyLess(x, e) || KeyLess(e, x) {
      var i :| 0 <= i < |s.queue| && s.queue[i] == x;
    }
    InsertSorted(s.queue, e);
    forall i | 0 <= i < |q| ensures q[i].cls == ClassOf(q[i].task.priority) && q[i].seqNo < s.nextSeq + 1 {
      assert q[i] in q;
      if q[i] != e {
        var j :| 0 <= j < |s.queue| && s.queue[j] == q[i];
      }
    }
  }

  /** Submitting a fresh (Queued) task keeps the store's invariant. */
  lemma AddTaskKeepsInv(s: QueueState, t: Task)
    requires Inv(s)
    requires t.status == Queued && Lifecycle(t)
    ensures Inv(AddTask(s, t))
  {
    AddTaskKeepsShape(s, t);
    var e := Entry(ClassOf(t.priority), s.nextSeq, t);
    var q := AddTask(s, t).queue;
    forall i | 0 <= i < |q| ensures q[i].task.status == Queued && Lifecycle(q[i].task) {
      assert q[i] in q;
      if q[i] != e {
        var j :| 0 <= j < |s.queue| && s.queue[j] == q[i];
      }
    }
  }

  /** Submitting a sequence of tasks in order. */
  function AddAll(s: QueueState, ts: seq<Task>): QueueState
    decreases |ts|
  {
    if |ts| == 0 then s else AddTask(AddAll(s, ts[..|ts| - 1]), ts[|ts| - 1])
  }

  function TasksOf(q: seq<Entry>): (r: seq<Task>)
    ensures |r| == |q|
    ensures forall i :: 0 <= i < |q| ==> r[i] == q[i].task
  {
    seq(|q|, i requires 0 <= i < |q| => q[i].task)
  }

  /** Reference order, independent of the queue: the priority tasks of `ts`
      in submission order. */
  function PriorityTasks(ts: seq<Task>): seq<Task>
    decreases |ts|
  {
    if |ts| == 0 then []
    else PriorityTasks(ts[..|ts| - 1]) + (if ts[|ts| - 1].priority then [ts[|ts| - 1]] else [])
  }

  /** The non-priority tasks of `ts` in submission order. */
  function NormalTasks(ts: seq<Task>): seq<Task>
    decreases |ts|
  {
    if |ts| == 0 then []
    else NormalTasks(ts[..|ts| - 1]) + (if ts[|ts| - 1].priority then [] else [ts[|ts| - 1]])
  }

  /** One submission appends the task to the list of its own class. */
  lemma AddTaskClasses(s: QueueState, t: Task)
    requires QueueShape(s)
    ensures TasksOf(InClass(AddTask(s, t).queue, 0)) ==
      TasksOf(InClass(s.queue, 0)) + (if t.priority then [t] else [])
    ensures TasksOf(InClass(AddTask(s, t).queue, 1)) ==
      TasksOf(InClass(s.queue, 1)) + (if t.priority then [] else [t])
  {
    AddTaskClass(s, t, 0);
    AddTaskClass(s, t, 1);
  }

  lemma AddTaskClass(s: QueueState, t: Task, c: nat)
    requires QueueShape(s)
    ensures TasksOf(InClass(AddTask(s, t).queue, c)) ==
      TasksOf(InClass(s.queue, c)) + (if ClassOf(t.priority) == c then [t] else [])
  {
    var e := Entry(ClassOf(t.priority), s.nextSeq, t);
    assert AddTask(s, t).queue == Insert(s.queue, e);
    InsertFreshInClass(s.queue, e, c);
    var a := InClass(s.queue, c);
    if e.cls == c {
      TasksOfConcat(a, [e]);
    } else {
      assert a + [] == a;
    }
  }

  lemma {:induction false} AddAllClasses(s: QueueState, ts: seq<Task>)
    requires QueueShape(s)
    ensures QueueShape(AddAll(s, ts))
    ensures TasksOf(InClass(AddAll(s, ts).queue, 0)) == TasksOf(InClass(s.queue, 0)) + PriorityTasks(ts)
    ensures TasksOf(InClass(AddAll(s, ts).queue, 1)) == TasksOf(InClass(s.queue, 1)) + NormalTasks(ts)
    decreases |ts|
  {
    if |ts| > 0 {
      var pre := ts[..|ts| - 1];
      var t := ts[|ts| - 1];
      var mid := AddAll(s, pre);
      AddAllClasses(s, pre);
      AddTaskKeepsShape(mid, t);
      assert AddAll(s, ts) == AddTask(mid, t);
      AddTaskClass(mid, t, 0);
      AddTaskClass(mid, t, 1);
      var x0 := if t.priority then [t] else [];
      var x1 := if t.priority then [] else [t];
      assert PriorityTasks(ts) == PriorityTasks(pre) + x0;
      assert NormalTasks(ts) == NormalTasks(pre) + x1;
      AppendAssoc(TasksOf(InClass(s.queue, 0)), PriorityTasks(pre), x0);
      AppendAssoc(TasksOf(InClass(s.queue, 1)), NormalTasks(pre), x1);
    }
  }

  lemma AppendAssoc(a: seq<Task>, b: seq<Task>, c: seq<Task>)
    ensures (a + b) + c == a + (b + c)
  {
  }

  /** Dequeue order after a run of submissions: the queued priority tasks,
      then the newly submitted priority tasks in submission order, then the
      queued normal tasks, then the new normal tasks in submission order.
      Priority tasks go first whatever their arrival; each class is FIFO. */
  lemma DequeueOrderOfSubmissions(s: QueueState, ts: seq<Task>)
    requires QueueShape(s)
    ensures TasksOf(AddAll(s, ts).queue) ==
      TasksOf(InClass(s.queue, 0)) + PriorityTasks(ts) + TasksOf(InClass(s.queue, 1)) + NormalTasks(ts)
  {
    AddAllClasses(s, ts);
    var q := AddAll(s, ts).queue;
    assert forall i :: 0 <= i < |q| ==> q[i].cls <= 1;
    SortedSplitsByClass(q);
    TasksOfConcat(InClass(q, 0), InClass(q, 1));
  }

  lemma TasksOfConcat(a: seq<Entry>, b: seq<Entry>)
    ensures TasksOf(a + b) == TasksOf(a) + TasksOf(b)
  {
  }

  /** The bounded history as a reference: the last `MaxHistory` ids. */
  function Window(ids: seq<string>): (w: seq<string>)
    ensures |w| <= MaxHistory
  {
    if |ids| <= MaxHistory then ids else ids[|ids| - MaxHistory..]
  }

  function IdsOf(ts: seq<Task>): (r: seq<string>)
    ensures |r| == |ts|
    ensures forall i :: 0 <= i < |ts| ==> r[i] == ts[i].taskId
  {
    seq(|ts|, i requires 0 <= i < |ts| => ts[i].taskId)
  }

  /** After any run of submissions the history holds exactly the newest
      `MaxHistory` submitted ids, oldest evicted first. */
  lemma {:induction false} HistoryIsWindow(s: QueueState, ts: seq<Task>)
    requires |s.history| <= MaxHistory
    ensures AddAll(s, ts).history == Window(s.history + IdsOf(ts))
    decreases |ts|
  {
    if |ts| == 0 {
      assert s.history + IdsOf(ts) == s.history;
    } else {
      var pre := ts[..|ts| - 1];
      var t := ts[|ts| - 1];
      HistoryIsWindow(s, pre);
      var xs := s.history + IdsOf(pre);
      IdsOfSnoc(ts);
      assert s.history + IdsOf(ts) == xs + [t.taskId];
      assert AddAll(s, ts) == AddTask(AddAll(s, pre), t);
      WindowStep(AddAll(s, pre), t, xs);
    }
  }

  lemma IdsOfSnoc(ts: seq<Task>)
    requires |ts| > 0
    ensures IdsOf(ts) == IdsOf(ts[..|ts| - 1]) + [ts[|ts| - 1].taskId]
  {
  }

  /** One submission moves the history window by one id. */
  lemma WindowStep(s: QueueState, t: Task, xs: seq<string>)
    requires s.history == Window(xs)
    ensures AddTask(s, t).history == Window(xs + [t.taskId])
  {
    var ys := xs + [t.taskId];
    if |xs| >= MaxHistory {
      assert Window(xs)[1..] + [t.taskId] == ys[|ys| - MaxHistory..];
    }
  }

  // ------------------------------------------------------- get_next_task

  /** `get_next_task`: single flight is asserted first; an empty queue
      yields no task and no change; otherwise the head, whose key is the
      least in the queue, becomes the only active task. */
  function GetNextTask(s: QueueState): (r: Result<(QueueState, Option<Task>), Fault>)
    ensures r.Err? <==> |s.active| != 0
    ensures r.Err? ==> r.error == AssertionError(ActiveTasksPresent)
    ensures r.Ok? && |s.queue| == 0 ==> r.value == (s, None)
    ensures r.Ok? && |s.queue| > 0 ==>
      var (s', t) := r.value;
      && t == Some(s.queue[0].task)
      && s'.queue == s.queue[1..]
      && s'.active == map[t.value.taskId := t.value]
      && s'.completed == s.completed && s'.history == s.history
      && s'.nextSeq == s.nextSeq && s'.unfinished == s.unfinished
    ensures r.Ok? && r.value.1.Some? && Sorted(s.queue) ==>
      forall e :: e in s.queue[1..] ==> KeyLess(s.queue[0], e)
    ensures r.Ok? && CounterInv(s) ==> CounterInv(r.value.0)
  {
    if |s.active| != 0 then Err(AssertionError(ActiveTasksPresent))
    else if |s.queue| == 0 then Ok((s, None))
    else
      var t := s.queue[0].task;
      assert forall e :: e in s.queue[1..] ==> exists j :: 1 <= j < |s.queue| && s.queue[j] == e;
      Ok((s.(queue := s.queue[1..], active := map[t.taskId := t]), Some(t)))
  }

  lemma GetNextKeepsInv(s: QueueState)
    requires Inv(s) && GetNextTask(s).Ok?
    ensures Inv(GetNextTask(s).value.0)
  {
    var s' := GetNextTask(s).value.0;
    if |s.queue| > 0 {
      assert s.queue[0] in s.queue;
      forall i, j | 0 <= i < j < |s'.queue| ensures KeyLess(s'.queue[i], s'.queue[j]) {
        assert s'.queue[i] == s.queue[i + 1] && s'.queue[j] == s.queue[j + 1];
      }
      forall i | 0 <= i < |s'.queue|
        ensures s'.queue[i].cls == ClassOf(s'.queue[i].task.priority) && s'.queue[i].seqNo < s'.nextSeq
        ensures s'.queue[i].task.status == Queued && Lifecycle(s'.queue[i].task)
      {
        assert s'.queue[i] == s.queue[i + 1];
      }
    }
  }

  // -------------------------------------------------- mark_task_complete

  /** `mark_task_complete`: nothing unless the id is active; a result
      without an exit code raises before anything changes; exit code -15
      cancels the task and keeps its old result, any other exit code
      completes it (Completed iff `success`) with the given result; the
      task moves from the active map to the completed map. */
  function MarkTaskComplete(s: QueueState, id: string, result: ScriptResult, success: bool, now: Time)
    : (r: Result<QueueState, Fault>)
    ensures id !in s.active ==> r == Ok(s)
    ensures id in s.active && result.exitCode.None? ==> r == Err(KeyError("exit_code"))
    ensures id in s.active && result.exitCode.Some? ==> r.Ok?
    ensures r.Ok? && id in s.active ==>
      r.value.active == s.active - {id} && r.value.completed.Keys == s.completed.Keys + {id}
    ensures r.Ok? && id in s.active ==>
      forall k :: k in s.completed && k != id ==> r.value.completed[k] == s.completed[k]
    ensures r.Ok? && id in s.active ==>
      && SameIdentity(s.active[id], r.value.completed[id])
      && r.value.completed[id].completedAt == Some(now)
      && r.value.completed[id].startedAt == s.active[id].startedAt
    ensures r.Ok? && id in s.active && result.exitCode == Some(-15) ==>
      r.value.completed[id].status == Canceled && r.value.completed[id].result == s.active[id].result
    ensures r.Ok? && id in s.active && result.exitCode != Some(-15) ==>
      && (r.value.completed[id].status == Completed <==> success)
      && (r.value.completed[id].status == Failed <==> !success)
      && r.value.completed[id].result == Some(result)
    ensures r.Ok? ==>
      && r.value.queue == s.queue && r.value.history == s.history
      && r.value.nextSeq == s.nextSeq && r.value.unfinished == s.unfinished
  {
    if id !in s.active then Ok(s)
    else if result.exitCode.None? then Err(KeyError("exit_code"))
    else
      var t := s.active[id];
      var done := if result.exitCode.value == -15 then Cancel(t, now) else Complete(t, result, success, now);
      Ok(s.(completed := s.completed[id := done], active := s.active - {id}))
  }

  lemma MarkCompleteKeepsInv(s: QueueState, id: string, result: ScriptResult, success: bool, now: Time)
    requires Inv(s) && MarkTaskComplete(s, id, result, success, now).Ok?
    ensures Inv(MarkTaskComplete(s, id, result, success, now).value)
  {
    var s' := MarkTaskComplete(s, id, result, success, now).value;
    if id in s.active {
      var t := s.active[id];
      var done := if result.exitCode.value == -15 then Cancel(t, now) else Complete(t, result, success, now);
      assert s' == s.(completed := s.completed[id := done], active := s.active - {id});
      CommitKeepsInv(s, id, done);
    }
  }

  /** Moving the active task to the completed map, in a terminal status,
      keeps the invariant. */
  lemma CommitKeepsInv(s: QueueState, id: string, done: Task)
    requires Inv(s) && id in s.active
    requires done.taskId == id && IsTerminal(done.status) && Lifecycle(done)
    ensures Inv(s.(completed := s.completed[id := done], active := s.active - {id}))
  {
    var s' := s.(completed := s.completed[id := done], active := s.active - {id});
    assert |s'.active| <= |s.active|;
    assert QueueShape(s') && PendingQueued(s'.queue);
  }

  // ------------------------------------------------------------ readers

  /** `get_task`: the active map is searched before the completed map;
      pending tasks are not found. */
  function GetTask(s: QueueState, id: string): (r: Option<Task>)
    ensures r.Some? <==> id in s.active || id in s.completed
    ensures id in s.active ==> r == Some(s.active[id])
    ensures id !in s.active && id in s.completed ==> r == Some(s.completed[id])
    ensures r.Some? && KeyedById(s.active) && KeyedById(s.completed) ==> r.value.taskId == id
  {
    if id in s.active then Some(s.active[id])
    else if id in s.completed then Some(s.completed[id])
    else None
  }

  /** The dictionary `get_queue_status` returns. The active tasks form a set
      because the map they come from is unordered here. */
  datatype StatusSnapshot = StatusSnapshot(queueSize: nat, activeTasks: set<TaskView>, totalCompleted: nat)

  /** `get_queue_status`: the three numbers come from one state, and the
      listed active tasks are exactly the views of the active map's tasks. */
  function GetQueueStatus(s: QueueState): (r: StatusSnapshot)
    ensures r.queueSize == |s.queue| && r.totalCompleted == |s.completed|
    ensures forall k :: k in s.active ==> ToView(s.active[k]) in r.activeTasks
    ensures KeyedById(s.active) ==>
      forall v :: v in r.activeTasks ==> v.taskId in s.active && v == ToView(s.active[v.taskId])
  {
    StatusSnapshot(|s.queue|, set k | k in s.active :: ToView(s.active[k]), |s.completed|)
  }

  /** Under single flight the status lists at most one active task. */
  lemma StatusListsAtMostOne(s: QueueState)
    requires Inv(s)
    ensures |GetQueueStatus(s).activeTasks| <= 1
  {
    if |s.active| == 1 {
      var k :| k in s.active;
      var rest := s.active.Keys - {k};
      assert |rest| == 0;
      assert forall j :: j in s.active ==> j == k by {
        forall j | j in s.active ensures j == k {
          assert j == k || j in rest;
        }
      }
      assert GetQueueStatus(s).activeTasks == {ToView(s.active[k])};
    } else {
      assert s.active == map[];
    }
  }

  /** `clear_queue`: drains the pending queue, counting each entry done, and
      reports how many it drained; drained tasks are neither canceled nor
      recorded. When the counter is spent, `task_done` raises ValueError
      with the entries drained so far gone and the rest still queued. The
      active task, the completed map and the history are untouched. */
  function ClearQueue(s: QueueState): (r: Call<nat>)
    ensures r.Returns? <==> |s.queue| == 0 || s.unfinished >= |s.queue|
    ensures r.Returns? ==> r.value == |s.queue| && r.s.queue == [] && r.s.unfinished == s.unfinished - |s.queue|
    ensures r.Raises? ==>
      && r.fault == ValueError(TaskDoneTooMany) && r.s.unfinished <= 0
      && |r.s.queue| < |s.queue| && r.s.queue == s.queue[|s.queue| - |r.s.queue|..]
      && |s.queue| - |r.s.queue| == (if s.unfinished < 0 then 0 else s.unfinished) + 1
    ensures r.s.active == s.active && r.s.completed == s.completed
    ensures r.s.history == s.history && r.s.nextSeq == s.nextSeq
    ensures Inv(s) ==> Inv(r.s)
    ensures CounterInv(s) ==> r.Returns? && CounterInv(r.s)
  {
    var d := Drain(s.queue, Every(), s.unfinished);
    DrainAll(s.queue, s.unfinished);
    if d.raised then Raises(ValueError(TaskDoneTooMany), s.(queue := d.rest, unfinished := d.unfinished))
    else Returns(|d.removed|, s.(queue := [], unfinished := d.unfinished))
  }

  /** Draining every entry: the loop raises exactly when the counter is
      below the queue's length, after draining one entry more than the
      counter allowed; otherwise it drains everything. */
  lemma DrainAll(q: seq<Entry>, u: int)
    ensures var d := Drain(q, Every(), u);
      && (d.raised <==> 0 < |q| && u < |q|)
      && (!d.raised ==> d.removed == q && d.kept == [] && d.unfinished == u - |q|)
      && (d.raised ==>
            && |d.rest| < |q| && d.rest == q[|q| - |d.rest|..] && d.unfinished <= 0
            && |q| - |d.rest| == (if u < 0 then 0 else u) + 1
            && (Sorted(q) ==> Sorted(d.rest)))
  {
    var d := Drain(q, Every(), u);
    DrainCompletes(q, Every(), u);
    KeepAll(q, Every());
    KeepPartition(q, Every());
    if d.raised {
      DrainStops(q, Every(), u);
      var n := |q| - |d.rest|;
      KeepAll(q[..n], Every());
      SuffixSorted(q, n);
    }
  }

  /** The test `clear_queue` drains by: every entry. */
  function Every(): Entry -> bool {
    e => true
  }

  /** Clearing while a task runs leaves the status listing it. */
  lemma ClearKeepsActiveListed(s: QueueState)
    ensures GetQueueStatus(ClearQueue(s).s).activeTasks == GetQueueStatus(s).activeTasks
    ensures ClearQueue(s).Returns? ==> GetQueueStatus(ClearQueue(s).s).queueSize == 0
  {
  }

  /** The ids `get_recent_tasks` looks at: the last `limit` of the history,
      or all of it when `limit <= 0` (Python's `history[-limit:]`). */
  function RecentIds(h: seq<string>, limit: int): (r: seq<string>)
    ensures limit <= 0 ==> r == h
    ensures limit > 0 ==> |r| == (if limit < |h| then limit else |h|)
    ensures r == h[|h| - |r|..]
  {
    if limit <= 0 || limit >= |h| then h else h[|h| - limit..]
  }

  /** A view of a task `get_task` finds under the id the view carries. */
  ghost predicate FoundView(s: QueueState, v: TaskView) {
    GetTask(s, v.taskId).Some? && v == ToView(GetTask(s, v.taskId).value)
  }

  /** `reversed(ids)`. */
  function Reverse(ids: seq<string>): (r: seq<string>)
    ensures |r| == |ids|
    ensures forall i :: 0 <= i < |ids| ==> r[i] == ids[|ids| - 1 - i]
  {
    seq(|ids|, i requires 0 <= i < |ids| => ids[|ids| - 1 - i])
  }

  /** Views of the tasks behind `ids`, in the order given, skipping ids
      `get_task` does not find. */
  function CollectViews(s: QueueState, ids: seq<string>): (r: seq<TaskView>)
    ensures |r| <= |ids|
    decreases |ids|
  {
    if |ids| == 0 then []
    else
      var rest := CollectViews(s, ids[1..]);
      match GetTask(s, ids[0])
      case Some(t) => [ToView(t)] + rest
      case None => rest
  }

  /** Every collected view is the view of a task found under one of the
      ids, and carries that id. */
  lemma {:induction false} CollectViewsFound(s: QueueState, ids: seq<string>)
    requires KeyedById(s.active) && KeyedById(s.completed)
    ensures forall i :: 0 <= i < |CollectViews(s, ids)| ==>
      CollectViews(s, ids)[i].taskId in ids && FoundView(s, CollectViews(s, ids)[i])
    decreases |ids|
  {
    if |ids| > 0 {
      CollectViewsFound(s, ids[1..]);
      assert forall id :: id in ids[1..] ==> id in ids;
    }
  }

  /** When every id is found, the views are exactly those of the ids'
      tasks, in the same order. */
  lemma {:induction false} CollectViewsAll(s: QueueState, ids: seq<string>)
    requires forall j :: 0 <= j < |ids| ==> GetTask(s, ids[j]).Some?
    ensures |CollectViews(s, ids)| == |ids|
    ensures forall i :: 0 <= i < |ids| ==> CollectViews(s, ids)[i] == ToView(GetTask(s, ids[i]).value)
    decreases |ids|
  {
    if |ids| > 0 {
      var tail := ids[1..];
      assert forall j :: 0 <= j < |tail| ==> tail[j] == ids[j + 1];
      CollectViewsAll(s, tail);
      var r, rest := CollectViews(s, ids), CollectViews(s, tail);
      assert r == [ToView(GetTask(s, ids[0]).value)] + rest;
      forall i | 0 < i < |ids| ensures r[i] == ToView(GetTask(s, ids[i]).value) {
        assert r[i] == rest[i - 1] && tail[i - 1] == ids[i];
      }
    }
  }

  /** The ids of `ids` that `get_task` finds, in the order given. */
  function FoundIds(s: QueueState, ids: seq<string>): (r: seq<string>)
    ensures |r| <= |ids|
    ensures forall id :: id in r <==> id in ids && GetTask(s, id).Some?
    ensures (forall j :: 0 <= j < |ids| ==> GetTask(s, ids[j]).Some?) ==> r == ids
    decreases |ids|
  {
    if |ids| == 0 then []
    else
      var tail := ids[1..];
      var rest := FoundIds(s, tail);
      assert ids == [ids[0]] + tail;
      assert forall j :: 0 <= j < |tail| ==> tail[j] == ids[j + 1];
      if GetTask(s, ids[0]).Some? then [ids[0]] + rest else rest
  }

  /** `views` are the views of the tasks `get_task` finds under `ids`, one
      per id and in the same order. */
  ghost predicate ViewsOf(s: QueueState, ids: seq<string>, views: seq<TaskView>) {
    |views| == |ids| &&
    forall i :: 0 <= i < |ids| ==> GetTask(s, ids[i]).Some? && views[i] == ToView(GetTask(s, ids[i]).value)
  }

  lemma ViewsOfCons(s: QueueState, id: string, ids: seq<string>, views: seq<TaskView>)
    requires GetTask(s, id).Some? && ViewsOf(s, ids, views)
    ensures ViewsOf(s, [id] + ids, [ToView(GetTask(s, id).value)] + views)
  {
    var ids', views' := [id] + ids, [ToView(GetTask(s, id).value)] + views;
    forall i | 0 < i < |ids'|
      ensures GetTask(s, ids'[i]).Some? && views'[i] == ToView(GetTask(s, ids'[i]).value)
    {
      assert ids'[i] == ids[i - 1] && views'[i] == views[i - 1];
    }
  }

  /** The collected views are the views of the found ids' tasks, one per
      found id and in the same order. */
  lemma {:induction false} CollectViewsOfFoundIds(s: QueueState, ids: seq<string>)
    ensures ViewsOf(s, FoundIds(s, ids), CollectViews(s, ids))
    decreases |ids|
  {
    if |ids| > 0 {
      var tail := ids[1..];
      CollectViewsOfFoundIds(s, tail);
      if GetTask(s, ids[0]).Some? {
        assert FoundIds(s, ids) == [ids[0]] + FoundIds(s, tail);
        assert CollectViews(s, ids) == [ToView(GetTask(s, ids[0]).value)] + CollectViews(s, tail);
        ViewsOfCons(s, ids[0], FoundIds(s, tail), CollectViews(s, tail));
      }
    }
  }

  /** `get_recent_tasks`: at most `limit` views (the whole history when
      `limit <= 0`) and never more than the history holds. */
  function GetRecentTasks(s: QueueState, limit: int): (r: seq<TaskView>)
    ensures limit > 0 ==> |r| <= limit
    ensures |r| <= |s.history|
  {
    CollectViews(s, Reverse(RecentIds(s.history, limit)))
  }

  /** Each recent view is of a task `get_task` finds under an id of the
      history. */
  lemma RecentTasksFound(s: QueueState, limit: int)
    requires KeyedById(s.active) && KeyedById(s.completed)
    ensures forall i :: 0 <= i < |GetRecentTasks(s, limit)| ==>
      GetRecentTasks(s, limit)[i].taskId in s.history && FoundView(s, GetRecentTasks(s, limit)[i])
  {
    var ids := RecentIds(s.history, limit);
    var rids := Reverse(ids);
    CollectViewsFound(s, rids);
    forall id | id in rids ensures id in s.history {
      var i :| 0 <= i < |rids| && rids[i] == id;
      assert ids[|ids| - 1 - i] in ids;
    }
  }

  /** The recent views are exactly the views of the tasks `get_task` finds
      among the last `limit` ids of the history, taken newest first; ids
      whose task was evicted or never recorded are skipped. */
  lemma RecentTasksAreFoundIds(s: QueueState, limit: int)
    ensures ViewsOf(s, FoundIds(s, Reverse(RecentIds(s.history, limit))), GetRecentTasks(s, limit))
  {
    CollectViewsOfFoundIds(s, Reverse(RecentIds(s.history, limit)));
  }

  /** When every id of the history is still found, the recent views are the
      tail of the history, newest first. */
  lemma RecentTasksNewestFirst(s: QueueState, limit: int)
    requires forall j :: 0 <= j < |s.history| ==> GetTask(s, s.history[j]).Some?
    ensures var n := |RecentIds(s.history, limit)|;
      |GetRecentTasks(s, limit)| == n && forall i :: 0 <= i < n ==>
        GetRecentTasks(s, limit)[i] == ToView(GetTask(s, s.history[|s.history| - 1 - i]).value)
  {
    var h := s.history;
    var ids := RecentIds(h, limit);
    var rids := Reverse(ids);
    forall i | 0 <= i < |rids| ensures rids[i] == h[|h| - 1 - i] && GetTask(s, rids[i]).Some? {
      assert rids[i] == h[|h| - |ids|..][|ids| - 1 - i];
    }
    CollectViewsAll(s, rids);
  }

  // ------------------------------------------------------- abort helpers

  /** The entries of `q` satisfying `p`, in queue order. */
  function Keep(q: seq<Entry>, p: Entry -> bool): (r: seq<Entry>)
    ensures |r| <= |q|
    ensures forall e :: e in r <==> e in q && p(e)
    decreases |q|
  {
    if |q| == 0 then []
    else
      var rest := Keep(q[1..], p);
      assert forall e :: e in q[1..] ==> e in q;
      if p(q[0]) then [q[0]] + rest else rest
  }

  /** Keeping a subsequence keeps the dequeue order. */
  lemma {:induction false} KeepSorted(q: seq<Entry>, p: Entry -> bool)
    requires Sorted(q)
    ensures Sorted(Keep(q, p))
    decreases |q|
  {
    if |q| > 0 {
      var t := q[1..];
      assert Sorted(t) by {
        forall i, j | 0 <= i < j < |t| ensures KeyLess(t[i], t[j]) {
          assert t[i] == q[i + 1] && t[j] == q[j + 1];
        }
      }
      KeepSorted(t, p);
      var rest := Keep(t, p);
      if p(q[0]) {
        forall y | y in rest ensures KeyLess(q[0], y) {
          var j :| 0 <= j < |t| && t[j] == y;
          assert q[j + 1] == y;
        }
        SortedCons(q[0], rest);
      }
    }
  }

  /** Keeping and dropping by the same test partitions the queue. */
  lemma {:induction false} KeepPartition(q: seq<Entry>, p: Entry -> bool)
    ensures multiset(Keep(q, p)) + multiset(Keep(q, Not(p))) == multiset(q)
    ensures |Keep(q, p)| + |Keep(q, Not(p))| == |q|
    decreases |q|
  {
    if |q| > 0 {
      KeepPartition(q[1..], p);
      assert q == [q[0]] + q[1..];
    }
  }

  lemma {:induction false} KeepAll(q: seq<Entry>, p: Entry -> bool)
    requires forall i :: 0 <= i < |q| ==> p(q[i])
    ensures Keep(q, p) == q
    decreases |q|
  {
    if |q| > 0 {
      var t := q[1..];
      assert forall i :: 0 <= i < |t| ==> t[i] == q[i + 1];
      KeepAll(t, p);
      assert Keep(q, p) == [q[0]] + Keep(t, p);
      assert q == [q[0]] + t;
    }
  }

  function EntryIds(rs: seq<Entry>): (r: seq<string>)
    ensures |r| == |rs|
    ensures forall i :: 0 <= i < |rs| ==> r[i] == rs[i].task.taskId
  {
    seq(|rs|, i requires 0 <= i < |rs| => rs[i].task.taskId)
  }

  /** No later entry of `rs` carries the id of entry `i`. */
  ghost predicate LastWithId(rs: seq<Entry>, i: int)
    requires 0 <= i < |rs|
  {
    forall j :: i < j < |rs| ==> rs[j].task.taskId != rs[i].task.taskId
  }

  /** Records each removed task, canceled, in the completed map, in queue
      order, so a later entry with the same id overwrites an earlier one. */
  function RecordCanceled(c: map<string, Task>, rs: seq<Entry>, now: Time): (r: map<string, Task>)
    ensures forall k :: k in r <==> k in c || k in EntryIds(rs)
    ensures forall k :: k in c && k !in EntryIds(rs) ==> r[k] == c[k]
    decreases |rs|
  {
    if |rs| == 0 then c
    else
      var last := rs[|rs| - 1];
      var pre := rs[..|rs| - 1];
      assert EntryIds(rs) == EntryIds(pre) + [last.task.taskId];
      RecordCanceled(c, pre, now)[last.task.taskId := Cancel(last.task, now)]
  }

  /** The last removed entry with a given id is the one the completed map
      ends up holding, canceled. */
  lemma {:induction false} RecordCanceledLast(c: map<string, Task>, rs: seq<Entry>, now: Time, i: nat)
    requires i < |rs| && LastWithId(rs, i)
    ensures rs[i].task.taskId in RecordCanceled(c, rs, now)
    ensures RecordCanceled(c, rs, now)[rs[i].task.taskId] == Cancel(rs[i].task, now)
    decreases |rs|
  {
    assert EntryIds(rs)[i] == rs[i].task.taskId;
    if i < |rs| - 1 {
      var pre := rs[..|rs| - 1];
      assert pre[i] == rs[i];
      assert LastWithId(pre, i) by {
        forall j | i < j < |pre| ensures pre[j].task.taskId != pre[i].task.taskId {
          assert pre[j] == rs[j];
        }
      }
      RecordCanceledLast(c, pre, now, i);
    }
  }

  /** The last entry carrying the same id as entry `i`. */
  function LastIndexWithId(rs: seq<Entry>, i: nat): (j: nat)
    requires i < |rs|
    ensures i <= j < |rs| && rs[j].task.taskId == rs[i].task.taskId && LastWithId(rs, j)
    decreases |rs| - i
  {
    if forall j :: i < j < |rs| ==> rs[j].task.taskId != rs[i].task.taskId then i
    else
      var j :| i < j < |rs| && rs[j].task.taskId == rs[i].task.taskId;
      LastIndexWithId(rs, j)
  }

  /** Every id a record step touches ends up holding a canceled copy of one
      of the removed tasks. */
  lemma RecordCanceledFrom(c: map<string, Task>, rs: seq<Entry>, now: Time, k: string)
    requires k in EntryIds(rs)
    ensures exists i :: (0 <= i < |rs| && rs[i].task.taskId == k &&
      RecordCanceled(c, rs, now)[k] == Cancel(rs[i].task, now))
  {
    var i0 :| 0 <= i0 < |rs| && EntryIds(rs)[i0] == k;
    var j := LastIndexWithId(rs, i0);
    RecordCanceledLast(c, rs, now, j);
  }

  // ---------------------------------------------------------- drain loop

  /** Where a drain loop stopped: the entries moved to the new queue and the
      entries removed, both in dequeue order, the old queue's unfinished
      counter, whether its `task_done` raised, and the entries still on the
      old queue at that point. */
  datatype DrainEnd = DrainEnd(kept: seq<Entry>, removed: seq<Entry>, unfinished: int, raised: bool, rest: seq<Entry>)

  /** The loop `clear_queue` and both aborts run under the lock: entries
      leave the old queue front first, in the order `get_nowait` hands them
      out. One that `hit` selects is removed and counted done on the old
      queue, whose `task_done` raises ValueError once the counter is spent;
      any other entry moves to the new queue. */
  function Drain(q: seq<Entry>, hit: Entry -> bool, u: int): (d: DrainEnd)
    decreases |q|
  {
    if |q| == 0 then DrainEnd([], [], u, false, [])
    else if hit(q[0]) then
      if u < 1 then DrainEnd([], [q[0]], u, true, q[1..])
      else
        var d := Drain(q[1..], hit, u - 1);
        d.(removed := [q[0]] + d.removed)
    else
      var d := Drain(q[1..], hit, u);
      d.(kept := [q[0]] + d.kept)
  }

  /** The loop raises exactly when the counter is below the number of
      entries it has to remove. Otherwise it splits the whole queue into
      the kept and the removed entries and counts every removed one done. */
  lemma {:induction false} DrainCompletes(q: seq<Entry>, hit: Entry -> bool, u: int)
    ensures Drain(q, hit, u).raised <==> 0 < |Keep(q, hit)| && u < |Keep(q, hit)|
    ensures !Drain(q, hit, u).raised ==>
      && Drain(q, hit, u).kept == Keep(q, Not(hit))
      && Drain(q, hit, u).removed == Keep(q, hit)
      && Drain(q, hit, u).unfinished == u - |Keep(q, hit)|
    decreases |q|
  {
    if |q| > 0 {
      if hit(q[0]) {
        assert Keep(q, hit) == [q[0]] + Keep(q[1..], hit);
        DrainCompletes(q[1..], hit, u - 1);
      } else {
        assert Keep(q, hit) == Keep(q[1..], hit);
        DrainCompletes(q[1..], hit, u);
      }
    }
  }

  /** When the loop raises, it has drained a prefix of the old queue: the
      selected entries of that prefix are removed, one more than the
      counter allowed, and its other entries sit on a new queue that is
      never installed. The rest stays on the old queue, whose counter is
      spent. */
  lemma {:induction false} DrainStops(q: seq<Entry>, hit: Entry -> bool, u: int)
    requires Drain(q, hit, u).raised
    ensures var d := Drain(q, hit, u); var n := |q| - |d.rest|;
      && 0 < n <= |q| && d.rest == q[n..]
      && d.kept == Keep(q[..n], Not(hit)) && d.removed == Keep(q[..n], hit)
      && |d.removed| == (if u < 0 then 0 else u) + 1
      && d.unfinished == (if u < 0 then u else 0)
    decreases |q|
  {
    assert |q| > 0;
    var d := Drain(q, hit, u);
    var n := |q| - |d.rest|;
    if hit(q[0]) && u < 1 {
      assert q[..n] == [q[0]];
      assert q[..n][1..] == [];
    } else {
      var u' := if hit(q[0]) then u - 1 else u;
      DrainStops(q[1..], hit, u');
      var d' := Drain(q[1..], hit, u');
      assert d.rest == d'.rest;
      var n' := |q| - 1 - |d'.rest|;
      assert q[..n][1..] == q[1..][..n'];
      assert q[1..][n'..] == q[n..];
    }
  }

  /** The store an abort's loop leaves: the removed tasks are canceled and
      recorded in the completed map; the new queue of kept entries is
      installed when the loop completes, the old queue's rest stays when it
      raised; the counter is the old queue's. */
  function Drained(s: QueueState, d: DrainEnd, now: Time): QueueState {
    s.(queue := if d.raised then d.rest else d.kept,
       completed := RecordCanceled(s.completed, d.removed, now),
       unfinished := d.unfinished)
  }

  /** The queue an abort leaves holds entries that were queued, in dequeue
      order, and every entry it removed was queued and selected. */
  lemma DrainedQueue(s: QueueState, hit: Entry -> bool, now: Time)
    ensures var d := Drain(s.queue, hit, s.unfinished);
      && (forall e :: e in Drained(s, d, now).queue ==> e in s.queue)
      && (forall e :: e in d.removed ==> e in s.queue && hit(e))
      && (Sorted(s.queue) ==> Sorted(Drained(s, d, now).queue))
  {
    var d := Drain(s.queue, hit, s.unfinished);
    DrainCompletes(s.queue, hit, s.unfinished);
    if d.raised {
      DrainStops(s.queue, hit, s.unfinished);
      var n := |s.queue| - |d.rest|;
      assert forall e :: e in s.queue[..n] ==> e in s.queue;
      assert forall e :: e in d.rest ==> e in s.queue;
      SuffixSorted(s.queue, n);
    } else if Sorted(s.queue) {
      KeepSorted(s.queue, Not(hit));
    }
  }

  lemma SuffixSorted(q: seq<Entry>, n: nat)
    requires n <= |q|
    ensures Sorted(q) ==> Sorted(q[n..])
  {
    if Sorted(q) {
      forall i, j | 0 <= i < j < |q[n..]| ensures KeyLess(q[n..][i], q[n..][j]) {
        assert q[n..][i] == q[n + i] && q[n..][j] == q[n + j];
      }
    }
  }

  /** Replacing the queue by queued entries in dequeue order, and recording
      canceled copies of queued entries, keeps the store's invariant. */
  lemma RecordedKeepsInv(s: QueueState, q': seq<Entry>, removed: seq<Entry>, now: Time, u: int)
    requires Inv(s) && Sorted(q')
    requires forall e :: e in q' ==> e in s.queue
    requires forall e :: e in removed ==> e in s.queue
    ensures Inv(s.(queue := q', completed := RecordCanceled(s.completed, removed, now), unfinished := u))
  {
    var s' := s.(queue := q', completed := RecordCanceled(s.completed, removed, now), unfinished := u);
    forall k | k in s'.completed
      ensures s'.completed[k].taskId == k && IsTerminal(s'.completed[k].status) && Lifecycle(s'.completed[k])
    {
      if k in EntryIds(removed) {
        RecordCanceledFrom(s.completed, removed, now, k);
        var i :| 0 <= i < |removed| && removed[i].task.taskId == k &&
          s'.completed[k] == Cancel(removed[i].task, now);
        assert removed[i] in removed;
      }
    }
    forall i | 0 <= i < |s'.queue|
      ensures s'.queue[i].cls == ClassOf(s'.queue[i].task.priority) && s'.queue[i].seqNo < s'.nextSeq
      ensures s'.queue[i].task.status == Queued && Lifecycle(s'.queue[i].task)
    {
      assert s'.queue[i] in s'.queue;
    }
  }

  /** Both aborts keep the store's invariant, whether the loop completes or
      raises. */
  lemma DrainedKeepsInv(s: QueueState, hit: Entry -> bool, now: Time)
    requires Inv(s)
    ensures Inv(Drained(s, Drain(s.queue, hit, s.unfinished), now))
  {
    var d := Drain(s.queue, hit, s.unfinished);
    DrainedQueue(s, hit, now);
    RecordedKeepsInv(s, Drained(s, d, now).queue, d.removed, now, d.unfinished);
  }

  /** The entry tests of the two aborts, and their complement. */
  function IdIs(id: string): Entry -> bool {
    (e: Entry) => e.task.taskId == id
  }

  function PathIs(path: string): Entry -> bool {
    (e: Entry) => e.task.scriptPath == path
  }

  function Not(p: Entry -> bool): Entry -> bool {
    e => !p(e)
  }

  /** The last kept entry is the last entry of `q` that passes `p`. */
  lemma {:induction false} KeepLast(q: seq<Entry>, p: Entry -> bool)
    requires |Keep(q, p)| > 0
    ensures exists i :: (0 <= i < |q| && q[i] == Keep(q, p)[|Keep(q, p)| - 1] &&
      (forall j :: i < j < |q| ==> !p(q[j])))
    decreases |q|
  {
    var t := q[1..];
    if |Keep(t, p)| > 0 {
      KeepLast(t, p);
      var i :| 0 <= i < |t| && t[i] == Keep(t, p)[|Keep(t, p)| - 1] && forall j :: i < j < |t| ==> !p(t[j]);
      assert q[i + 1] == t[i];
      forall j | i + 1 < j < |q| ensures !p(q[j]) {
        assert q[j] == t[j - 1];
      }
    } else {
      forall j | 0 < j < |q| ensures !p(q[j]) {
        assert q[j] == t[j - 1];
        assert q[j] !in Keep(t, p);
      }
    }
  }

  // -------------------------------------------------- abort_task_by_id

  /** `abort_task_by_id`: refuses (false, no change) when the id is active;
      otherwise drains the queue removing the entries carrying the id (see
      `AbortByIdQueue`, `AbortByIdRecords`, `AbortByIdMissing`). When the
      old queue's counter runs out mid-drain, `task_done` raises ValueError
      out of the call and the new queue is never installed. The counter
      keeps the in-flight task's count (`AbortTaskByIdAsWritten` is the
      source's reset). */
  function AbortTaskById(s: QueueState, id: string, now: Time): (r: Call<bool>)
    ensures id in s.active ==> r == Returns(false, s)
    ensures r.s.active == s.active && r.s.history == s.history && r.s.nextSeq == s.nextSeq
    ensures r.Raises? <==> id !in s.active && 0 < |Keep(s.queue, IdIs(id))| && s.unfinished < |Keep(s.queue, IdIs(id))|
    ensures r.Raises? ==> r.fault == ValueError(TaskDoneTooMany) && r.s.unfinished <= 0
    ensures CounterInv(s) ==> r.Returns? && CounterInv(r.s)
  {
    if id in s.active then Returns(false, s)
    else
      var d := Drain(s.queue, IdIs(id), s.unfinished);
      DrainCompletes(s.queue, IdIs(id), s.unfinished);
      KeepPartition(s.queue, IdIs(id));
      if d.raised then
        DrainStops(s.queue, IdIs(id), s.unfinished);
        Raises(ValueError(TaskDoneTooMany), Drained(s, d, now))
      else Returns(|d.removed| > 0, Drained(s, d, now))
  }

  /** The answer says whether the id was queued; the queue keeps exactly the
      other entries, still in dequeue order. */
  lemma AbortByIdQueue(s: QueueState, id: string, now: Time)
    requires id !in s.active
    ensures var r := AbortTaskById(s, id, now);
      r.Returns? ==>
        && (r.value <==> exists i :: 0 <= i < |s.queue| && s.queue[i].task.taskId == id)
        && (forall e :: e in r.s.queue <==> e in s.queue && e.task.taskId != id)
    ensures Sorted(s.queue) ==> Sorted(AbortTaskById(s, id, now).s.queue)
  {
    var removed := Keep(s.queue, IdIs(id));
    DrainCompletes(s.queue, IdIs(id), s.unfinished);
    DrainedQueue(s, IdIs(id), now);
    if exists i :: 0 <= i < |s.queue| && s.queue[i].task.taskId == id {
      var i :| 0 <= i < |s.queue| && s.queue[i].task.taskId == id;
      assert s.queue[i] in removed;
    } else if |removed| > 0 {
      assert removed[0] in s.queue;
    }
  }

  /** A found id is recorded in the completed map as the canceled copy of
      the last queued entry carrying it; the map gains only that key and
      the other completed tasks are untouched. */
  lemma AbortByIdRecords(s: QueueState, id: string, now: Time)
    requires id !in s.active
    ensures var r := AbortTaskById(s, id, now);
      r.Returns? ==>
        && r.s.completed.Keys == s.completed.Keys + (if r.value then {id} else {})
        && (forall k :: k in s.completed && k != id ==> r.s.completed[k] == s.completed[k])
        && (r.value ==>
              exists i :: (0 <= i < |s.queue| && s.queue[i].task.taskId == id &&
                (forall j :: i < j < |s.queue| ==> s.queue[j].task.taskId != id) &&
                r.s.completed[id] == Cancel(s.queue[i].task, now)))
  {
    var removed := Keep(s.queue, IdIs(id));
    var r := AbortTaskById(s, id, now);
    DrainCompletes(s.queue, IdIs(id), s.unfinished);
    if r.Returns? {
      assert r.value == (|removed| > 0);
      assert r.s.completed == RecordCanceled(s.completed, removed, now);
      RemovedIdsAre(s.queue, id);
      RecordedKeys(s.completed, removed, id, now);
      if r.value {
        var last := |removed| - 1;
        assert removed[last] in removed;
        RecordCanceledLast(s.completed, removed, now, last);
        KeepLast(s.queue, IdIs(id));
        var i :| 0 <= i < |s.queue| && s.queue[i] == removed[last] &&
          forall j :: i < j < |s.queue| ==> !IdIs(id)(s.queue[j]);
        assert r.s.completed[id] == Cancel(s.queue[i].task, now);
      }
    }
  }

  /** Recording entries that all carry `id` adds at most that key. */
  lemma RecordedKeys(c: map<string, Task>, removed: seq<Entry>, id: string, now: Time)
    requires forall k :: k in EntryIds(removed) ==> k == id
    ensures RecordCanceled(c, removed, now).Keys == c.Keys + (if |removed| > 0 then {id} else {})
    ensures forall k :: k in c && k != id ==> RecordCanceled(c, removed, now)[k] == c[k]
  {
    if |removed| > 0 {
      assert EntryIds(removed)[0] in EntryIds(removed);
    }
  }

  /** Every entry an abort by id removes carries that id. */
  lemma RemovedIdsAre(q: seq<Entry>, id: string)
    ensures forall k :: k in EntryIds(Keep(q, IdIs(id))) ==> k == id
  {
    var removed := Keep(q, IdIs(id));
    forall k | k in EntryIds(removed) ensures k == id {
      var i :| 0 <= i < |removed| && EntryIds(removed)[i] == k;
      assert removed[i] in removed;
    }
  }

  /** An id that is not queued leaves the store as it was. */
  lemma AbortByIdMissing(s: QueueState, id: string, now: Time)
    requires forall i :: 0 <= i < |s.queue| ==> s.queue[i].task.taskId != id
    ensures AbortTaskById(s, id, now) == Returns(false, s)
  {
    if id !in s.active {
      KeepAll(s.queue, Not(IdIs(id)));
      KeepPartition(s.queue, IdIs(id));
      DrainCompletes(s.queue, IdIs(id), s.unfinished);
    }
  }

  lemma AbortByIdKeepsInv(s: QueueState, id: string, now: Time)
    requires Inv(s)
    ensures Inv(AbortTaskById(s, id, now).s)
  {
    if id !in s.active {
      DrainedKeepsInv(s, IdIs(id), now);
    }
  }

  /** `abort_task_by_id` as the source writes it: when the loop completes,
      the installed `PriorityQueue` starts its unfinished counter from the
      number of entries put back, forgetting the count of a task the worker
      holds. A raise leaves the same store as the corrected call. */
  function AbortTaskByIdAsWritten(s: QueueState, id: string, now: Time): (r: Call<bool>)
    ensures id in s.active ==> r == Returns(false, s)
    ensures r.Returns? && id !in s.active ==> r.s.unfinished == |r.s.queue|
    ensures var c := AbortTaskById(s, id, now);
      && (r.Raises? <==> c.Raises?)
      && (r.Raises? ==> r == c)
      && (r.Returns? && id !in s.active ==> r == Returns(c.value, c.s.(unfinished := |c.s.queue|)))
  {
    var c := AbortTaskById(s, id, now);
    if id in s.active || c.Raises? then c
    else Returns(c.value, c.s.(unfinished := |c.s.queue|))
  }

  /** Aborting the same id twice: the second call finds nothing and changes
      nothing. */
  lemma AbortTwice(s: QueueState, id: string, now: Time, later: Time)
    ensures var r := AbortTaskById(s, id, now);
      r.Returns? ==> AbortTaskById(r.s, id, later) == Returns(false, r.s)
  {
    var r := AbortTaskById(s, id, now);
    if r.Returns? {
      if id !in s.active {
        AbortByIdQueue(s, id, now);
        forall i | 0 <= i < |r.s.queue| ensures r.s.queue[i].task.taskId != id {
          assert r.s.queue[i] in r.s.queue;
        }
      }
      if id !in r.s.active {
        AbortByIdMissing(r.s, id, later);
      }
    }
  }

  // ------------------------------------------------ abort_tasks_by_path

  /** The notices the notifier is handed: the canceled view of each removed
      task, in dequeue order. */
  function AbortNotices(removed: seq<Entry>, now: Time): (r: seq<TaskView>)
    ensures |r| == |removed|
    ensures forall i :: 0 <= i < |removed| ==> r[i] == ToView(Cancel(removed[i].task, now))
  {
    seq(|removed|, i requires 0 <= i < |removed| => ToView(Cancel(removed[i].task, now)))
  }

  /** `abort_tasks_by_path` with the notifier call it intends: the queued
      tasks whose script path matches are removed, canceled, recorded and
      each reported once (see `AbortByPathQueue`, `AbortByPathNotices`); the
      count of them is returned and active tasks are untouched. The drain
      raises as in `AbortTaskById` when the counter runs out. The counter
      keeps the in-flight task's count. */
  function AbortTasksByPath(s: QueueState, path: string, now: Time): (r: Call<(nat, seq<TaskView>)>)
    ensures r.s.active == s.active && r.s.history == s.history && r.s.nextSeq == s.nextSeq
    ensures r.Raises? <==> 0 < |Keep(s.queue, PathIs(path))| && s.unfinished < |Keep(s.queue, PathIs(path))|
    ensures r.Returns? ==> r.value.0 == |Keep(s.queue, PathIs(path))| && |r.value.1| == r.value.0
    ensures r.Raises? ==> r.fault == ValueError(TaskDoneTooMany) && r.s.unfinished <= 0
    ensures CounterInv(s) ==> r.Returns? && CounterInv(r.s)
  {
    var d := Drain(s.queue, PathIs(path), s.unfinished);
    DrainCompletes(s.queue, PathIs(path), s.unfinished);
    KeepPartition(s.queue, PathIs(path));
    if d.raised then
      DrainStops(s.queue, PathIs(path), s.unfinished);
      Raises(ValueError(TaskDoneTooMany), Drained(s, d, now))
    else Returns((|d.removed|, AbortNotices(d.removed, now)), Drained(s, d, now))
  }

  /** The queue keeps exactly the entries with other paths, in dequeue
      order, and loses as many as were reported. */
  lemma AbortByPathQueue(s: QueueState, path: string, now: Time)
    ensures var r := AbortTasksByPath(s, path, now);
      r.Returns? ==>
        && (forall e :: e in r.s.queue <==> e in s.queue && e.task.scriptPath != path)
        && |r.s.queue| + r.value.0 == |s.queue|
    ensures Sorted(s.queue) ==> Sorted(AbortTasksByPath(s, path, now).s.queue)
  {
    DrainCompletes(s.queue, PathIs(path), s.unfinished);
    KeepPartition(s.queue, PathIs(path));
    DrainedQueue(s, PathIs(path), now);
  }

  /** The notices are the canceled views of the removed tasks, in dequeue
      order, each for the given path; the completed map records them. */
  lemma AbortByPathNotices(s: QueueState, path: string, now: Time)
    ensures var r := AbortTasksByPath(s, path, now);
      var removed := Keep(s.queue, PathIs(path));
      r.Returns? ==>
        && (forall i :: 0 <= i < r.value.0 ==> r.value.1[i] == ToView(Cancel(removed[i].task, now)))
        && (forall i :: 0 <= i < r.value.0 ==>
              r.value.1[i].scriptPath == path && StatusFromValue(r.value.1[i].status) == Some(Canceled))
        && r.s.completed == RecordCanceled(s.completed, removed, now)
  {
    var removed := Keep(s.queue, PathIs(path));
    DrainCompletes(s.queue, PathIs(path), s.unfinished);
    assert forall i :: 0 <= i < |removed| ==> removed[i] in removed;
  }

  lemma AbortByPathKeepsInv(s: QueueState, path: string, now: Time)
    requires Inv(s)
    ensures Inv(AbortTasksByPath(s, path, now).s)
  {
    DrainedKeepsInv(s, PathIs(path), now);
  }

  /** The position of the first entry of `q` that passes `p`. */
  function FirstHit(q: seq<Entry>, p: Entry -> bool): (k: nat)
    requires exists i :: 0 <= i < |q| && p(q[i])
    ensures k < |q| && p(q[k])
    ensures forall j :: 0 <= j < k ==> !p(q[j])
    decreases |q|
  {
    if p(q[0]) then 0
    else
      var t := q[1..];
      assert exists i :: 0 <= i < |t| && p(t[i]) by {
        var i :| 0 <= i < |q| && p(q[i]);
        assert t[i - 1] == q[i];
      }
      var k := FirstHit(t, p);
      assert forall j :: 0 < j <= k ==> q[j] == t[j - 1];
      k + 1
  }

  /** `abort_tasks_by_path` as the source writes it. The `EmailNotifier`
      defines no `send_task_aborted_notification`, so the first matching
      entry — already canceled, recorded and counted done, where a spent
      counter raises ValueError first — raises AttributeError, which only
      the lock's release sees. The queue swap never happens: the entries in
      front of the match, moved to the new queue, are lost, and the ones
      behind it stay on the old queue. With no match the loop completes and
      the installed queue's counter restarts from the entries put back. */
  function AbortTasksByPathAsWritten(s: QueueState, path: string, now: Time): (r: Call<(nat, seq<TaskView>)>)
    ensures r.s.active == s.active && r.s.history == s.history && r.s.nextSeq == s.nextSeq
    ensures r.Returns? <==> forall i :: 0 <= i < |s.queue| ==> s.queue[i].task.scriptPath != path
    ensures r.Returns? ==> r == Returns((0, []), s.(unfinished := |s.queue|))
    ensures r.Raises? ==>
      var k := FirstHit(s.queue, PathIs(path));
      && r.s.queue == s.queue[k + 1..]
      && r.s.completed == s.completed[s.queue[k].task.taskId := Cancel(s.queue[k].task, now)]
      && (r.fault == ValueError(TaskDoneTooMany) <==> s.unfinished < 1)
      && (r.fault == AttributeError(AbortNotice) <==> s.unfinished >= 1)
      && r.s.unfinished == (if s.unfinished < 1 then s.unfinished else s.unfinished - 1)
  {
    if forall i :: 0 <= i < |s.queue| ==> s.queue[i].task.scriptPath != path then
      Returns((0, []), s.(unfinished := |s.queue|))
    else
      var k := FirstHit(s.queue, PathIs(path));
      var e := s.queue[k];
      var s1 := s.(queue := s.queue[k + 1..], completed := s.completed[e.task.taskId := Cancel(e.task, now)]);
      if s.unfinished < 1 then Raises(ValueError(TaskDoneTooMany), s1)
      else Raises(AttributeError(AbortNotice), s1.(unfinished := s.unfinished - 1))
  }

  /** As written, a match stops the loop where the corrected loop with a
      spent counter would stop: the same entries stay queued and the same
      completed map results. The entries in front of the match are then in
      neither the queue nor the completed map. */
  lemma PathAsWrittenStopsAtFirstMatch(s: QueueState, path: string, now: Time)
    requires exists i :: 0 <= i < |s.queue| && s.queue[i].task.scriptPath == path
    ensures var r := AbortTasksByPathAsWritten(s, path, now);
      var d := Drain(s.queue, PathIs(path), 0);
      && d.raised && r.s.queue == d.rest
      && r.s.completed == RecordCanceled(s.completed, d.removed, now)
      && d.kept == s.queue[..FirstHit(s.queue, PathIs(path))]
  {
    var k := FirstHit(s.queue, PathIs(path));
    DrainPrefix(s.queue, PathIs(path), k);
    var d := Drain(s.queue, PathIs(path), 0);
    assert d.removed == [s.queue[k]];
    assert EntryIds(d.removed) == [s.queue[k].task.taskId];
    assert RecordCanceled(s.completed, d.removed, now) == RecordCanceled(s.completed, [], now)[s.queue[k].task.taskId := Cancel(s.queue[k].task, now)] by {
      assert d.removed[..0] == [];
    }
  }

  /** A spent counter stops the loop at the first selected entry `k`. */
  lemma {:induction false} DrainPrefix(q: seq<Entry>, hit: Entry -> bool, k: nat)
    requires k < |q| && hit(q[k]) && forall j :: 0 <= j < k ==> !hit(q[j])
    ensures Drain(q, hit, 0) == DrainEnd(q[..k], [q[k]], 0, true, q[k + 1..])
    decreases k
  {
    if k > 0 {
      var t := q[1..];
      assert forall j :: 0 <= j < k - 1 ==> t[j] == q[j + 1];
      DrainPrefix(t, hit, k - 1);
      assert q[..k] == [q[0]] + t[..k - 1];
      assert t[k..] == q[k + 1..];
    }
  }

  /** When no task is active the source's counter reset is harmless: the
      abort by id agrees with the corrected one, and so does the abort by
      path when no queued entry has the path (the only case where the
      source returns). */
  lemma AsWrittenAgreesWhenIdle(s: QueueState, id: string, path: string, now: Time)
    requires CounterInv(s) && |s.active| == 0
    ensures AbortTaskByIdAsWritten(s, id, now) == AbortTaskById(s, id, now)
    ensures (forall i :: 0 <= i < |s.queue| ==> s.queue[i].task.scriptPath != path) ==>
      AbortTasksByPathAsWritten(s, path, now) == AbortTasksByPath(s, path, now)
  {
    if id !in s.active {
      var r := AbortTaskById(s, id, now).s;
      assert r.unfinished == |r.queue|;
    }
    if forall i :: 0 <= i < |s.queue| ==> s.queue[i].task.scriptPath != path {
      KeepAll(s.queue, Not(PathIs(path)));
      KeepPartition(s.queue, PathIs(path));
      DrainCompletes(s.queue, PathIs(path), s.unfinished);
      assert AbortNotices([], now) == [];
    }
  }

  /** Aborting, as the source writes it, an id that every queued entry
      carries empties the queue and zeroes the counter. */
  lemma AbortAllAsWritten(s: QueueState, id: string, now: Time)
    requires id !in s.active && |s.queue| > 0 && s.unfinished >= |s.queue|
    requires forall i :: 0 <= i < |s.queue| ==> s.queue[i].task.taskId == id
    ensures AbortTaskByIdAsWritten(s, id, now).Returns?
    ensures AbortTaskByIdAsWritten(s, id, now).value
    ensures AbortTaskByIdAsWritten(s, id, now).s.unfinished == 0
    ensures AbortTaskByIdAsWritten(s, id, now).s.active == s.active
  {
    KeepAll(s.queue, IdIs(id));
    DrainCompletes(s.queue, IdIs(id), s.unfinished);
    KeepPartition(s.queue, IdIs(id));
  }

  /** While the worker holds a task, the abort by id as written, and the
      abort by path as written when it returns, leave the counter one short
      of the entries not yet marked done. */
  lemma AsWrittenLosesInFlightCount(s: QueueState, id: string, path: string, now: Time)
    requires CounterInv(s) && |s.active| == 1
    ensures var r := AbortTaskByIdAsWritten(s, id, now);
      id !in s.active ==> r.Returns? && r.s.unfinished == |r.s.queue| + |r.s.active| - 1
    ensures var r := AbortTasksByPathAsWritten(s, path, now);
      r.Returns? ==> r.s.unfinished == |r.s.queue| + |r.s.active| - 1
  {
  }

  /** Submit A, then B with another path, and abort B's path as the source
      writes it: the call raises AttributeError with the queue empty, and A
      is in neither the queue, the active map nor the completed map, so
      `get_task` no longer finds it. The intended call returns 1 and keeps A
      queued. */
  lemma PathAbortScenario(a: Task, b: Task)
    requires a.taskId == "A" && b.taskId == "B" && !a.priority && !b.priority
    requires a.scriptPath != b.scriptPath
    ensures var qs := AddTask(AddTask(Init(), a), b);
      var r := AbortTasksByPathAsWritten(qs, b.scriptPath, 1);
      && r.Raises? && r.fault == AttributeError(AbortNotice)
      && r.s.queue == [] && "A" !in r.s.active && "A" !in r.s.completed
      && GetTask(r.s, "A") == None
    ensures var qs := AddTask(AddTask(Init(), a), b);
      var c := AbortTasksByPath(qs, b.scriptPath, 1);
      && c.Returns? && c.value.0 == 1 && |c.s.queue| == 1 && c.s.queue[0].task == a
  {
    var qs1 := AddTask(Init(), a);
    assert |qs1.queue| == 1 && qs1.queue[0] in multiset(qs1.queue);
    assert qs1.queue == [Entry(1, 0, a)];
    var qs := AddTask(qs1, b);
    var eb := Entry(ClassOf(b.priority), qs1.nextSeq, b);
    InsertAtPos(qs1.queue, eb);
    assert qs.queue == [Entry(1, 0, a), Entry(1, 1, b)];
    assert FirstHit(qs.queue, PathIs(b.scriptPath)) == 1;
    assert Keep(qs.queue, PathIs(b.scriptPath)) == [Entry(1, 1, b)];
    assert Keep(qs.queue, Not(PathIs(b.scriptPath))) == [Entry(1, 0, a)];
    DrainCompletes(qs.queue, PathIs(b.scriptPath), qs.unfinished);
  }

  // ------------------------------------------------------------ task_done

  /** `task_done`: one fewer unfinished entry; raises when none is left. */
  function TaskDone(s: QueueState): (r: Result<QueueState, Fault>)
    ensures r.Err? <==> s.unfinished < 1
    ensures r.Ok? ==> r.value == s.(unfinished := s.unfinished - 1)
  {
    if s.unfinished - 1 < 0 then Err(ValueError(TaskDoneTooMany))
    else Ok(s.(unfinished := s.unfinished - 1))
  }
}
