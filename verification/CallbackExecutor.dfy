/** The executor: a task queue, its mutex and condition variable, and a pool of workers.

    Every block that runs with the mutex held is one step; so are `notify_one`, `notify_all`, a spurious
    wake-up and the end of a task. The shared pool has several workers, the dedicated executor has one. */
module CallbackExecutor {
  import opened Counting

  /** `target` says whose drain task it is; `late` marks what an outside thread submitted after the stop. */
  datatype Task = Task(id: nat, target: nat, late: bool)

  datatype Worker = Awake | Asleep | Running(task: Task) | Exited

  /** `notices` counts the submitters that have yet to call notify_one, `broadcast` is set while the destructor
      has yet to call notify_all. `submitted`, `started` and `finished` are histories. */
  datatype Executor = Executor(tasks: seq<Task>, workers: seq<Worker>, stop: bool, notices: nat, broadcast: bool,
                               submitted: seq<Task>, started: seq<Task>, finished: set<nat>)

  datatype Submitter = Outside | Inside(worker: nat)

  datatype Action =
    | Submit(target: nat, from: Submitter)
    | NotifyOne(sleeper: nat)
    | RequestStop
    | NotifyAll
    | Check(worker: nat)
    | Finish(worker: nat)
    | Spurious(worker: nat)

  function IsAwake(w: Worker): nat { Bit(w.Awake?) }
  function IsAsleep(w: Worker): nat { Bit(w.Asleep?) }

  predicate NoneAsleep(ws: seq<Worker>) {
    forall i :: 0 <= i < |ws| ==> !ws[i].Asleep?
  }

  function Start(n: nat): Executor {
    Executor([], seq(n, _ => Awake), false, 0, false, [], [], {})
  }

  predicate Enabled(x: Executor, a: Action) {
    match a
    case Submit(_, from) => from.Outside? || (from.worker < |x.workers| && x.workers[from.worker].Running?)
    case NotifyOne(s) => 0 < x.notices && ((s < |x.workers| && x.workers[s].Asleep?) || NoneAsleep(x.workers))
    case RequestStop => !x.stop
    case NotifyAll => x.broadcast
    case Check(w) => w < |x.workers| && x.workers[w].Awake?
    case Finish(w) => w < |x.workers| && x.workers[w].Running?
    case Spurious(w) => w < |x.workers| && x.workers[w].Asleep?
  }

  function Wake(w: Worker): Worker {
    if w.Asleep? then Awake else w
  }

  function WakeAll(ws: seq<Worker>): (r: seq<Worker>)
    ensures |r| == |ws| && forall i :: 0 <= i < |r| ==> r[i] == Wake(ws[i])
  {
    seq(|ws|, i requires 0 <= i < |ws| => Wake(ws[i]))
  }

  /** The wait predicate is evaluated with the mutex held: sleep, leave after a stop, or take the oldest task. */
  function CheckQueue(x: Executor, w: nat): Executor
    requires w < |x.workers|
  {
    if x.tasks == [] then
      x.(workers := x.workers[w := if x.stop then Exited else Asleep])
    else
      x.(tasks := x.tasks[1..], workers := x.workers[w := Running(x.tasks[0])], started := x.started + [x.tasks[0]])
  }

  function Next(x: Executor, a: Action): Executor
    requires Enabled(x, a)
  {
    match a
    case Submit(target, from) =>
      var task := Task(|x.submitted|, target, x.stop && from.Outside?);
      x.(tasks := x.tasks + [task], submitted := x.submitted + [task], notices := x.notices + 1)
    case NotifyOne(s) =>
      x.(notices := x.notices - 1, workers := if s < |x.workers| then x.workers[s := Wake(x.workers[s])] else x.workers)
    case RequestStop => x.(stop := true, broadcast := true)
    case NotifyAll => x.(broadcast := false, workers := WakeAll(x.workers))
    case Check(w) => CheckQueue(x, w)
    case Finish(w) => x.(workers := x.workers[w := Awake], finished := x.finished + {x.workers[w].task.id})
    case Spurious(w) => x.(workers := x.workers[w := Awake])
  }

  // ---------------------------------------------------------------- tasks

  /** Tasks leave in the order of submission, each at most once, and a started task is running or finished. */
  ghost predicate InOrder(x: Executor) {
    && x.submitted == x.started + x.tasks
    && (forall i :: 0 <= i < |x.submitted| ==> x.submitted[i].id == i)
  }

  ghost predicate RunningOnce(x: Executor) {
    && (forall w :: 0 <= w < |x.workers| && x.workers[w].Running? ==>
          x.workers[w].task in x.started && x.workers[w].task.id !in x.finished)
    && (forall v, w :: 0 <= v < w < |x.workers| && x.workers[v].Running? && x.workers[w].Running? ==>
          x.workers[v].task.id != x.workers[w].task.id)
  }

  ghost predicate IsRunning(x: Executor, id: nat) {
    exists w :: 0 <= w < |x.workers| && x.workers[w].Running? && x.workers[w].task.id == id
  }

  ghost predicate StartedRun(x: Executor) {
    && (forall id :: id in x.finished ==> id < |x.started|)
    && (forall id :: 0 <= id < |x.started| ==> id in x.finished || IsRunning(x, id))
  }

  // ---------------------------------------------------------------- wake-ups

  /** While a worker sleeps, there is a wake-up on its way, or a worker about to look, for every task. */
  predicate WakeUps(x: Executor) {
    0 < Tally(IsAsleep, x.workers) ==> |x.tasks| <= x.notices + Tally(IsAwake, x.workers)
  }

  ghost predicate AllExited(x: Executor) {
    forall w :: 0 <= w < |x.workers| ==> x.workers[w].Exited?
  }

  ghost predicate OnlyLate(tasks: seq<Task>) {
    forall i :: 0 <= i < |tasks| ==> tasks[i].late
  }

  ghost predicate Stopping(x: Executor) {
    && (x.stop && !NoneAsleep(x.workers) ==> x.broadcast)
    && ((exists w :: 0 <= w < |x.workers| && x.workers[w].Exited?) ==> x.stop)
    && (AllExited(x) && 0 < |x.workers| ==> OnlyLate(x.tasks))
  }

  ghost predicate Inv(x: Executor) {
    InOrder(x) && RunningOnce(x) && StartedRun(x) && WakeUps(x) && Stopping(x)
  }

  lemma StartInv(n: nat)
    ensures Inv(Start(n))
  {
    TallyNone(IsAsleep, Start(n).workers);
  }

  lemma InOrderKept(x: Executor, a: Action)
    requires Enabled(x, a) && InOrder(x)
    ensures InOrder(Next(x, a))
  {
    if a.Submit? {
      var task := Task(|x.submitted|, a.target, x.stop && a.from.Outside?);
      assert x.submitted + [task] == x.started + (x.tasks + [task]);
    } else if a.Check? && x.tasks != [] {
      assert x.started + [x.tasks[0]] + x.tasks[1..] == x.started + x.tasks;
    }
  }

  lemma StartedIds(x: Executor, i: nat)
    requires InOrder(x) && i < |x.submitted|
    ensures x.submitted[i].id == i
    ensures i < |x.started| ==> x.started[i].id == i
    ensures |x.started| <= i ==> x.tasks[i - |x.started|].id == i
  {
  }

  lemma RunningOnceKept(x: Executor, a: Action)
    requires Enabled(x, a) && InOrder(x) && RunningOnce(x) && StartedRun(x)
    ensures RunningOnce(Next(x, a))
  {
    hide IsRunning;
    if a.Check? && x.tasks != [] {
      StartedIds(x, |x.started|);
      forall t: Task | t in x.started ensures t.id < |x.started| {
        var i :| 0 <= i < |x.started| && x.started[i] == t;
        StartedIds(x, i);
      }
    }
  }

  lemma StartedRunKept(x: Executor, a: Action)
    requires Enabled(x, a) && InOrder(x) && RunningOnce(x) && StartedRun(x)
    ensures StartedRun(Next(x, a))
  {
    var y := Next(x, a);
    forall id | 0 <= id < |y.started| ensures id in y.finished || IsRunning(y, id) {
      if id < |x.started| {
        if id !in y.finished {
          var w :| 0 <= w < |x.workers| && x.workers[w].Running? && x.workers[w].task.id == id;
          assert y.workers[w] == x.workers[w];
        }
      } else {
        StartedIds(x, id);
        assert y.workers[a.worker].task.id == id;
      }
    }
    if a.Finish? {
      var t := x.workers[a.worker].task;
      var i :| 0 <= i < |x.started| && x.started[i] == t;
      StartedIds(x, i);
    }
  }

  lemma SomeAsleep(ws: seq<Worker>)
    ensures 0 < Tally(IsAsleep, ws) <==> !NoneAsleep(ws)
  {
    if NoneAsleep(ws) {
      TallyNone(IsAsleep, ws);
    } else {
      var i :| 0 <= i < |ws| && ws[i].Asleep?;
      TallySplit(IsAsleep, ws, i);
    }
  }

  lemma WakeUpsKept(x: Executor, a: Action)
    requires Enabled(x, a) && WakeUps(x)
    ensures WakeUps(Next(x, a))
  {
    var y := Next(x, a);
    SomeAsleep(x.workers);
    SomeAsleep(y.workers);
    if a.NotifyAll? {
      assert NoneAsleep(y.workers);
    } else if a.NotifyOne? && a.sleeper < |x.workers| {
      TallyUpdate(IsAsleep, x.workers, a.sleeper, Wake(x.workers[a.sleeper]));
      TallyUpdate(IsAwake, x.workers, a.sleeper, Wake(x.workers[a.sleeper]));
    } else if a.Check? || a.Finish? || a.Spurious? {
      TallyUpdate(IsAsleep, x.workers, a.worker, y.workers[a.worker]);
      TallyUpdate(IsAwake, x.workers, a.worker, y.workers[a.worker]);
    }
  }

  lemma StoppingKept(x: Executor, a: Action)
    requires Enabled(x, a) && Stopping(x)
    ensures Stopping(Next(x, a))
  {
    var y := Next(x, a);
    if AllExited(y) && 0 < |y.workers| {
      if AllExited(x) {
        assert x.workers[0].Exited?;
      } else {
        var w :| 0 <= w < |x.workers| && !x.workers[w].Exited?;
        assert y.workers[w].Exited?;
      }
    }
    if !NoneAsleep(y.workers) && y.stop {
      var w :| 0 <= w < |y.workers| && y.workers[w].Asleep?;
      assert x.workers[w].Asleep?;
    }
    if exists w :: 0 <= w < |y.workers| && y.workers[w].Exited? {
      var w :| 0 <= w < |y.workers| && y.workers[w].Exited?;
      assert x.workers[w].Exited? || x.stop;
    }
  }

  lemma InvKept(x: Executor, a: Action)
    requires Enabled(x, a) && Inv(x)
    ensures Inv(Next(x, a))
  {
    hide InOrder, RunningOnce, StartedRun, WakeUps, Stopping, Next, Enabled;
    InOrderKept(x, a);
    RunningOnceKept(x, a);
    StartedRunKept(x, a);
    WakeUpsKept(x, a);
    StoppingKept(x, a);
  }

  // ---------------------------------------------------------------- whole runs

  /** The executor after a run of enabled steps, or None where a step was not enabled. */
  ghost predicate Leads(x: Executor, run: seq<Action>, y: Executor)
    decreases |run|
  {
    if run == [] then x == y else Enabled(x, run[0]) && Leads(Next(x, run[0]), run[1..], y)
  }

  lemma {:induction false} RunInv(x: Executor, run: seq<Action>, y: Executor)
    requires Inv(x) && Leads(x, run, y)
    ensures Inv(y)
    decreases |run|
  {
    hide Inv, Next, Enabled;
    if run != [] {
      InvKept(x, run[0]);
      RunInv(Next(x, run[0]), run[1..], y);
    }
  }

  /** A run taken apart at its last step. */
  lemma {:induction false} LeadsFront(x: Executor, run: seq<Action>, y: Executor) returns (u: Executor)
    requires run != [] && Leads(x, run, y)
    ensures Leads(x, run[..|run| - 1], u) && Enabled(u, run[|run| - 1]) && y == Next(u, run[|run| - 1])
    decreases |run|
  {
    hide Enabled, Next;
    if |run| == 1 {
      assert run[..0] == [] && run[1..] == [];
      u := x;
    } else {
      u := LeadsFront(Next(x, run[0]), run[1..], y);
      assert run[1..][..|run[1..]| - 1] == run[..|run| - 1][1..];
    }
  }

  /** How many tasks the run has submitted. */
  function Submits(run: seq<Action>): nat
    decreases |run|
  {
    if run == [] then 0 else Submits(run[..|run| - 1]) + Bit(run[|run| - 1].Submit?)
  }

  predicate StopBefore(run: seq<Action>, p: nat)
    requires p <= |run|
  {
    exists q :: 0 <= q < p && run[q].RequestStop?
  }

  /** The submission at place `p` of the run is recorded, under its number, as what it was. */
  ghost predicate Recorded(run: seq<Action>, p: nat, submitted: seq<Task>)
    requires p < |run| && run[p].Submit?
  {
    var i := Submits(run[..p]);
    && i < |submitted|
    && submitted[i] == Task(i, run[p].target, run[p].from.Outside? && StopBefore(run, p))
  }

  /** The executor's histories are those of the run: every submission in order, and whether it came from outside after
      the stop. */
  lemma {:induction false} RunRecorded(n: nat, run: seq<Action>, y: Executor)
    requires Leads(Start(n), run, y)
    ensures |y.submitted| == Submits(run) && (y.stop <==> StopBefore(run, |run|))
    ensures forall p :: 0 <= p < |run| && run[p].Submit? ==> Recorded(run, p, y.submitted)
    decreases |run|
  {
    hide Leads, Enabled;
    if run == [] {
      StartOnly(n, y);
    } else {
      var u := LeadsFront(Start(n), run, y);
      var front, last := run[..|run| - 1], run[|run| - 1];
      RunRecorded(n, front, u);
      StepRecords(u, last);
      assert StopBefore(run, |run|) <==> StopBefore(front, |front|) || last.RequestStop?;
      forall p | 0 <= p < |run| && run[p].Submit? ensures Recorded(run, p, y.submitted) {
        assert run[..p] == front[..p];
        assert StopBefore(run, p) <==> StopBefore(front, p);
        if p < |front| { assert Recorded(front, p, u.submitted); } else { assert front[..p] == front; }
      }
    }
  }

  lemma StartOnly(n: nat, y: Executor)
    requires Leads(Start(n), [], y)
    ensures y == Start(n)
  {
  }

  lemma StepRecords(x: Executor, a: Action)
    requires Enabled(x, a)
    ensures var y := Next(x, a);
      && (y.stop <==> x.stop || a.RequestStop?)
      && y.submitted == if a.Submit? then x.submitted + [Task(|x.submitted|, a.target, x.stop && a.from.Outside?)]
                        else x.submitted
  {
  }

  /** Tasks start at most once and in the order of submission. */
  lemma StartsInOrder(n: nat, run: seq<Action>, y: Executor)
    requires Leads(Start(n), run, y)
    ensures y.started <= y.submitted && y.submitted == y.started + y.tasks
    ensures forall i, j :: 0 <= i < j < |y.started| ==> y.started[i].id < y.started[j].id
    ensures forall p :: 0 <= p < |run| && run[p].Submit? ==>
      Submits(run[..p]) < |y.submitted| && y.submitted[Submits(run[..p])].target == run[p].target
  {
    hide Leads, RunningOnce, StartedRun, WakeUps, Stopping, Submits, StopBefore;
    StartInv(n);
    RunInv(Start(n), run, y);
    RunRecorded(n, run, y);
    forall p | 0 <= p < |run| && run[p].Submit?
      ensures Submits(run[..p]) < |y.submitted| && y.submitted[Submits(run[..p])].target == run[p].target
    {
      assert Recorded(run, p, y.submitted);
    }
  }

  /** Once all workers have left, everything submitted before the stop, or by a task, has run; the queue is empty but
      for what came from outside after the stop. */
  lemma ShutdownDrains(n: nat, run: seq<Action>, y: Executor)
    requires 0 < n && Leads(Start(n), run, y) && AllExited(y)
    ensures forall p :: 0 <= p < |run| && run[p].Submit? && (run[p].from.Inside? || !StopBefore(run, p)) ==>
      Submits(run[..p]) in y.finished
    ensures forall i :: 0 <= i < |y.submitted| && !y.submitted[i].late ==> i in y.finished
    ensures OnlyLate(y.tasks)
    ensures (forall i :: 0 <= i < |y.submitted| ==> !y.submitted[i].late) ==> y.tasks == []
  {
    hide Leads;
    StartInv(n);
    RunInv(Start(n), run, y);
    WorkersKept(Start(n), run, y);
    RunRecorded(n, run, y);
    forall i | 0 <= i < |y.submitted| && !y.submitted[i].late ensures i in y.finished {
      assert i < |y.started|;
      assert !IsRunning(y, i);
    }
    if y.tasks != [] {
      assert y.submitted[|y.started|] == y.tasks[0] && y.tasks[0].late;
    }
  }

  lemma {:induction false} WorkersKept(x: Executor, run: seq<Action>, y: Executor)
    requires Leads(x, run, y)
    ensures |y.workers| == |x.workers|
    decreases |run|
  {
    if run != [] { WorkersKept(Next(x, run[0]), run[1..], y); }
  }

  /** No lost wake-up: as long as a worker sleeps, every waiting task has a notification to come or a worker
      that is about to look at the queue. */
  lemma NoLostWakeUp(n: nat, run: seq<Action>, y: Executor)
    requires Leads(Start(n), run, y) && !NoneAsleep(y.workers)
    ensures |y.tasks| <= y.notices + Tally(IsAwake, y.workers)
    ensures y.stop ==> y.broadcast
  {
    StartInv(n);
    RunInv(Start(n), run, y);
    SomeAsleep(y.workers);
  }

  /** No step of the executor itself is left to take. */
  ghost predicate Quiet(x: Executor) {
    && x.notices == 0 && !x.broadcast
    && forall w :: 0 <= w < |x.workers| ==> x.workers[w].Asleep? || x.workers[w].Exited?
  }

  /** At rest there is nothing left to do: no task waits, or the pool has shut down and only late tasks are left. */
  lemma QuietIsDone(y: Executor)
    requires Inv(y) && 0 < |y.workers| && Quiet(y)
    ensures if y.stop then AllExited(y) && OnlyLate(y.tasks) else y.tasks == []
  {
    SomeAsleep(y.workers);
    TallyNone(IsAwake, y.workers);
    if !y.stop {
      assert y.workers[0].Asleep?;
    }
  }
}
