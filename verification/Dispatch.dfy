/** Listeners, arrival threads and the workers of one executor, interleaved at will.

    Every block that runs with a mutex held is one step. A thread that set `callback_scheduled_` waits in
    `flags` until it has submitted the drain task; a worker waits between popping a sample, calling back and
    counting the call. */
module Dispatch {
  import opened Counting
  import opened ListenerQueue
  import E = CallbackExecutor

  /** Where a worker is inside a drain task: before locking the weak pointer, before the locked block of the loop,
      with a sample in hand, or past the callback but not yet counted. */
  datatype Drain =
    | Off
    | Starting(target: nat)
    | Draining(target: nat)
    | Holding(target: nat, sample: nat)
    | Called(target: nat, sample: nat)

  datatype Flag = Flag(target: nat, from: E.Submitter)

  datatype System = System(options: seq<Options>, listeners: seq<Listener>, executor: E.Executor,
                           drains: seq<Drain>, flags: seq<Flag>)

  datatype Action =
    | Arrival(target: nat, n: nat, from: E.Submitter)
    | Submit(flag: nat)
    | Signal(signal: E.Action)
    | Check(worker: nat)
    | Begin(worker: nat)
    | PopOne(worker: nat)
    | CallBack(worker: nat)
    | CountCall(worker: nat)
    | DestroyListener(target: nat)

  function Start(options: seq<Options>, workers: nat): System {
    System(options, seq(|options|, _ => NewListener()), E.Start(workers), seq(workers, _ => Off), [])
  }

  /** Whether a worker's callback is inside `on_data_available`, with a task to submit. */
  predicate Submitting(s: System, w: nat) {
    exists k :: 0 <= k < |s.flags| && s.flags[k].from == E.Inside(w)
  }

  /** The drain task holds a shared pointer from `Begin` to its end, and an arrival runs below a reader that is not
      deleted yet: only when there is neither can the last reference go away. */
  ghost predicate Referenced(s: System, l: nat) {
    || (exists k :: 0 <= k < |s.flags| && s.flags[k].target == l)
    || (exists w :: 0 <= w < |s.drains| && Active(s.drains[w]) && s.drains[w].target == l)
  }

  predicate Active(d: Drain) {
    d.Draining? || d.Holding? || d.Called?
  }

  predicate Alive(s: System, l: nat) {
    l < |s.listeners| && l < |s.options| && !s.listeners[l].stop
  }

  ghost predicate Enabled(s: System, a: Action) {
    match a
    case Arrival(l, n, from) =>
      && Alive(s, l)
      && (from.Inside? ==> from.worker < |s.drains| && s.drains[from.worker].Holding? && !Submitting(s, from.worker))
    case Submit(k) => k < |s.flags| && E.Enabled(s.executor, E.Submit(s.flags[k].target, s.flags[k].from))
    case Signal(x) => (x.NotifyOne? || x.NotifyAll? || x.RequestStop? || x.Spurious?) && E.Enabled(s.executor, x)
    case Check(w) => w < |s.drains| && E.Enabled(s.executor, E.Check(w))
    case Begin(w) => w < |s.drains| && s.drains[w].Starting? && Attached(s, w)
    case PopOne(w) => w < |s.drains| && s.drains[w].Draining? && Attached(s, w)
    case CallBack(w) => w < |s.drains| && s.drains[w].Holding? && Attached(s, w) && !Submitting(s, w)
    case CountCall(w) => w < |s.drains| && s.drains[w].Called? && Attached(s, w)
    case DestroyListener(l) => Alive(s, l) && !Referenced(s, l)
  }

  predicate Attached(s: System, w: nat)
    requires w < |s.drains| && !s.drains[w].Off?
  {
    && s.drains[w].target < |s.listeners| == |s.options|
    && w < |s.executor.workers| && s.executor.workers[w].Running?
  }

  function With(s: System, l: nat, listener: Listener): System
    requires l < |s.listeners|
  {
    s.(listeners := s.listeners[l := listener])
  }

  /** The worker returns from its task to the executor's loop. */
  function Leave(s: System, w: nat): System
    requires w < |s.drains| && E.Enabled(s.executor, E.Finish(w))
  {
    s.(drains := s.drains[w := Off], executor := E.Next(s.executor, E.Finish(w)))
  }

  function ArrivalNext(s: System, l: nat, n: nat, from: E.Submitter): System
    requires l < |s.listeners| && l < |s.options|
  {
    var (m, mine) := Arrive(s.options[l], s.listeners[l], n);
    var t := With(s, l, m);
    if mine then t.(flags := t.flags + [Flag(l, from)]) else t
  }

  function CheckNext(s: System, w: nat): System
    requires w < |s.drains| && E.Enabled(s.executor, E.Check(w))
  {
    var x := E.Next(s.executor, E.Check(w));
    if x.workers[w].Running? then
      s.(executor := x, drains := s.drains[w := Starting(x.workers[w].task.target)])
    else s.(executor := x)
  }

  function BeginNext(s: System, w: nat): System
    requires w < |s.drains| && s.drains[w].Starting? && Attached(s, w)
  {
    var l := s.drains[w].target;
    if s.listeners[l].stop then Leave(s, w) else s.(drains := s.drains[w := Draining(l)])
  }

  function PopNext(s: System, w: nat): System
    requires w < |s.drains| && s.drains[w].Draining? && Attached(s, w)
  {
    var l := s.drains[w].target;
    var (m, took) := Pop(s.listeners[l]);
    var t := With(s, l, m);
    if took.Took? then t.(drains := t.drains[w := Holding(l, took.sample)]) else Leave(t, w)
  }

  function CallBackNext(s: System, w: nat): System
    requires w < |s.drains| && s.drains[w].Holding? && Attached(s, w)
  {
    var d := s.drains[w];
    var t := With(s, d.target, Deliver(s.options[d.target], s.listeners[d.target], d.sample));
    t.(drains := t.drains[w := if s.options[d.target].metrics then Called(d.target, d.sample) else Draining(d.target)])
  }

  function CountNext(s: System, w: nat): System
    requires w < |s.drains| && s.drains[w].Called? && Attached(s, w)
  {
    var l := s.drains[w].target;
    With(s, l, Count(s.listeners[l])).(drains := s.drains[w := Draining(l)])
  }

  ghost function Next(s: System, a: Action): System
    requires Enabled(s, a)
  {
    match a
    case Arrival(l, n, from) => ArrivalNext(s, l, n, from)
    case Submit(k) =>
      s.(flags := s.flags[..k] + s.flags[k + 1..],
         executor := E.Next(s.executor, E.Submit(s.flags[k].target, s.flags[k].from)))
    case Signal(x) => s.(executor := E.Next(s.executor, x))
    case Check(w) => CheckNext(s, w)
    case Begin(w) => BeginNext(s, w)
    case PopOne(w) => PopNext(s, w)
    case CallBack(w) => CallBackNext(s, w)
    case CountCall(w) => CountNext(s, w)
    case DestroyListener(l) => With(s, l, Destroy(s.listeners[l]))
  }

  // ---------------------------------------------------------------- the carriers of a drain task

  function FlagsOf(l: nat): Flag -> nat { (f: Flag) => Bit(f.target == l) }
  function TasksOf(l: nat): E.Task -> nat { (t: E.Task) => Bit(t.target == l) }
  function DrainsOf(l: nat): Drain -> nat { (d: Drain) => Bit(!d.Off? && d.target == l) }
  function InHand(l: nat): Drain -> nat { (d: Drain) => Bit(d.Holding? && d.target == l) }
  function Uncounted(l: nat): Drain -> nat { (d: Drain) => Bit((d.Holding? || d.Called?) && d.target == l) }

  /** Threads about to submit the listener's drain task, its queued tasks, and the workers inside it. */
  function Load(s: System, l: nat): nat {
    Tally(FlagsOf(l), s.flags) + Tally(TasksOf(l), s.executor.tasks) + Tally(DrainsOf(l), s.drains)
  }

  // ---------------------------------------------------------------- the invariant

  ghost predicate Shaped(s: System) {
    && |s.options| == |s.listeners| && |s.drains| == |s.executor.workers|
    && (forall k :: 0 <= k < |s.flags| ==> Alive(s, s.flags[k].target))
    && (forall i :: 0 <= i < |s.executor.tasks| ==> s.executor.tasks[i].target < |s.listeners|)
    && (forall w :: 0 <= w < |s.drains| ==> (s.drains[w].Off? <==> !s.executor.workers[w].Running?))
    && (forall w :: 0 <= w < |s.drains| && !s.drains[w].Off? ==> s.drains[w].target < |s.listeners|)
    && (forall w :: 0 <= w < |s.drains| && s.drains[w].Called? ==> s.options[s.drains[w].target].metrics)
  }

  /** A destroyed listener is never touched by a worker. */
  ghost predicate NoUseAfterDestroy(s: System) {
    forall w :: 0 <= w < |s.drains| && Active(s.drains[w]) ==> Alive(s, s.drains[w].target)
  }

  ghost predicate FlagsFromCallbacks(s: System) {
    forall k :: 0 <= k < |s.flags| && s.flags[k].from.Inside? ==>
      s.flags[k].from.worker < |s.drains| && s.drains[s.flags[k].from.worker].Holding?
  }

  /** What was popped has been delivered, but for the sample in hand; and counted, but for one in hand or just called.
      */
  ghost predicate HandsOver(o: Options, l: Listener, drains: seq<Drain>, target: nat) {
    && l.delivered <= l.popped
    && |l.popped| == |l.delivered| + Tally(InHand(target), drains)
    && (forall w :: 0 <= w < |drains| && drains[w].Holding? && drains[w].target == target ==>
          l.popped != [] && l.popped[|l.popped| - 1] == drains[w].sample)
    && (o.metrics ==> l.queue.metrics.executed + Tally(Uncounted(target), drains) == |l.popped|)
  }

  ghost predicate Served(s: System, l: nat)
    requires l < |s.listeners| == |s.options|
  {
    && Sound(s.options[l], s.listeners[l])
    && Load(s, l) == Bit(s.listeners[l].scheduled)
    && HandsOver(s.options[l], s.listeners[l], s.drains, l)
  }

  ghost predicate AllServed(s: System)
    requires |s.listeners| == |s.options|
  {
    forall l :: 0 <= l < |s.listeners| && Alive(s, l) ==> Served(s, l)
  }

  ghost predicate Inv(s: System) {
    E.Inv(s.executor) && Shaped(s) && NoUseAfterDestroy(s) && FlagsFromCallbacks(s) && AllServed(s)
  }

  lemma StartInv(options: seq<Options>, workers: nat)
    ensures Inv(Start(options, workers))
  {
    hide E.Inv, Sound;
    var s := Start(options, workers);
    E.StartInv(workers);
    forall l | 0 <= l < |options| ensures Served(s, l) {
      NewListenerSound(options[l]);
      NoDrains(workers, l);
    }
  }

  lemma NoDrains(workers: nat, l: nat)
    ensures var ds := seq(workers, _ => Off);
      Tally(DrainsOf(l), ds) == Tally(InHand(l), ds) == Tally(Uncounted(l), ds) == 0
  {
    var ds := seq(workers, _ => Off);
    TallyNone(DrainsOf(l), ds);
    TallyNone(InHand(l), ds);
    TallyNone(Uncounted(l), ds);
  }
}
