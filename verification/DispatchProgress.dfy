/** Without new arrivals the dispatch system always comes to rest, with everything delivered. */
module DispatchProgress {
  import opened Counting
  import opened ListenerQueue
  import opened Dispatch
  import opened DispatchInvariant
  import opened DispatchTheorems
  import E = CallbackExecutor

  predicate Internal(a: Action) {
    !a.Arrival? && !a.DestroyListener? && (a.Signal? ==> a.signal.NotifyOne? || a.signal.NotifyAll?)
  }

  /** A thread that set the flag can always submit. */
  lemma SubmitNeverBlocks(s: System, k: nat)
    requires Inv(s) && k < |s.flags|
    ensures Enabled(s, Submit(k))
  {
    hide E.Inv, Served;
  }

  /** The world outside is never held up: samples arrive in any number, a worker's callback may publish once, the pool
      may be stopped once, waits may end for no reason, and a listener that nobody uses may go. */
  lemma WorldMayAct(s: System, l: nat, n: nat, w: nat)
    requires Inv(s)
    ensures Alive(s, l) ==> Enabled(s, Arrival(l, n, E.Outside))
    ensures Alive(s, l) && w < |s.drains| && s.drains[w].Holding? && !Submitting(s, w) ==>
      Enabled(s, Arrival(l, n, E.Inside(w)))
    ensures !s.executor.stop ==> Enabled(s, Signal(E.RequestStop))
    ensures w < |s.executor.workers| && s.executor.workers[w].Asleep? ==> Enabled(s, Signal(E.Spurious(w)))
    ensures Alive(s, l) && !Referenced(s, l) ==> Enabled(s, DestroyListener(l))
  {
    hide E.Inv, Served;
  }

  ghost predicate CanStep(s: System) {
    exists a: Action :: Internal(a) && Enabled(s, a)
  }

  lemma Stepping(s: System, a: Action)
    requires Internal(a) && Enabled(s, a)
    ensures CanStep(s)
  {
  }

  /** No deadlock: whoever is not at rest can take a step. */
  lemma RestOrStep(s: System)
    requires Inv(s) && !Rest(s)
    ensures CanStep(s)
  {
    hide CanStep, E.Inv, Served, NoUseAfterDestroy, FlagsFromCallbacks;
    var x := s.executor;
    if s.flags != [] {
      SubmitNeverBlocks(s, 0);
      Stepping(s, Submit(0));
    } else if 0 < x.notices {
      var w: nat :| E.NoneAsleep(x.workers) || (w < |x.workers| && x.workers[w].Asleep?);
      Stepping(s, Signal(E.NotifyOne(w)));
    } else if x.broadcast {
      Stepping(s, Signal(E.NotifyAll));
    } else {
      var w :| 0 <= w < |x.workers| && (x.workers[w].Awake? || x.workers[w].Running?);
      WorkerSteps(s, w);
    }
  }

  lemma WorkerSteps(s: System, w: nat)
    requires Shaped(s) && s.flags == [] && w < |s.drains|
    requires s.executor.workers[w].Awake? || s.executor.workers[w].Running?
    ensures CanStep(s)
  {
    hide CanStep;
    match s.drains[w] {
      case Off => Stepping(s, Check(w));
      case Starting(_) => Stepping(s, Begin(w));
      case Draining(_) => Stepping(s, PopOne(w));
      case Holding(_, _) => Stepping(s, CallBack(w));
      case Called(_, _) => Stepping(s, CountCall(w));
    }
  }

  function Effort(d: Drain): nat {
    match d
    case Off => 0
    case Starting(_) => 3
    case Draining(_) => 2
    case Holding(_, _) => 4
    case Called(_, _) => 3
  }

  function Waiting(l: Listener): nat {
    |l.queue.pending|
  }

  /** An upper bound on the internal steps that are left. */
  function Effortful(s: System): nat {
    6 * |s.flags| + 3 * |s.executor.tasks| + 2 * s.executor.notices
    + (if s.executor.broadcast then |s.executor.workers| + 1 else 0)
    + Tally(Effort, s.drains) + Tally(E.IsAwake, s.executor.workers) + 3 * Tally(Waiting, s.listeners)
  }

  lemma {:induction false} AtMostOneEach(ws: seq<E.Worker>)
    ensures Tally(E.IsAwake, ws) <= |ws|
  {
    if ws != [] { AtMostOneEach(ws[1..]); }
  }

  lemma WorkerMoves(s: System, w: nat, d: Drain, x: E.Worker)
    requires w < |s.drains| == |s.executor.workers|
    ensures Tally(Effort, s.drains[w := d]) + Effort(s.drains[w]) == Tally(Effort, s.drains) + Effort(d)
    ensures Tally(E.IsAwake, s.executor.workers[w := x]) + E.IsAwake(s.executor.workers[w])
         == Tally(E.IsAwake, s.executor.workers) + E.IsAwake(x)
  {
    TallyUpdate(Effort, s.drains, w, d);
    TallyUpdate(E.IsAwake, s.executor.workers, w, x);
  }

  lemma SignalDrops(s: System, x: E.Action)
    requires Enabled(s, Signal(x)) && Shaped(s) && Internal(Signal(x))
    ensures Effortful(Next(s, Signal(x))) < Effortful(s)
  {
    hide Effort, Waiting, E.IsAwake;
    var ws, t := s.executor.workers, Next(s, Signal(x));
    if x.NotifyAll? {
      AtMostOneEach(t.executor.workers);
    } else if x.sleeper < |ws| {
      NoticeWakesOne(ws, x.sleeper);
    }
  }

  lemma NoticeWakesOne(ws: seq<E.Worker>, w: nat)
    requires w < |ws|
    ensures Tally(E.IsAwake, ws[w := E.Wake(ws[w])]) <= Tally(E.IsAwake, ws) + 1
  {
    TallyUpdate(E.IsAwake, ws, w, E.Wake(ws[w]));
  }

  lemma CheckDrops(s: System, w: nat)
    requires Enabled(s, Check(w)) && Shaped(s)
    ensures Effortful(CheckNext(s, w)) < Effortful(s)
  {
    var t := CheckNext(s, w);
    WorkerMoves(s, w, t.drains[w], t.executor.workers[w]);
    assert t.executor.tasks == [] ==> |t.executor.tasks| == 0;
    assert t.drains == s.drains[w := t.drains[w]];
  }

  lemma BeginDrops(s: System, w: nat)
    requires Enabled(s, Begin(w)) && Shaped(s)
    ensures Effortful(BeginNext(s, w)) < Effortful(s)
  {
    var t := BeginNext(s, w);
    WorkerMoves(s, w, t.drains[w], t.executor.workers[w]);
  }

  lemma PopDrops(s: System, w: nat)
    requires Enabled(s, PopOne(w)) && Shaped(s)
    ensures Effortful(PopNext(s, w)) < Effortful(s)
  {
    var l, t := s.drains[w].target, PopNext(s, w);
    WorkerMoves(s, w, t.drains[w], t.executor.workers[w]);
    TallyUpdate(Waiting, s.listeners, l, t.listeners[l]);
  }

  lemma CallDrops(s: System, a: Action)
    requires Enabled(s, a) && Shaped(s) && (a.CallBack? || a.CountCall?)
    ensures Effortful(Next(s, a)) < Effortful(s)
  {
    hide Submitting;
    var l, t := s.drains[a.worker].target, Next(s, a);
    TallyUpdate(Effort, s.drains, a.worker, t.drains[a.worker]);
    TallyUpdate(Waiting, s.listeners, l, t.listeners[l]);
  }

  lemma EffortDrops(s: System, a: Action)
    requires Enabled(s, a) && Shaped(s) && Internal(a)
    ensures Effortful(Next(s, a)) < Effortful(s)
  {
    hide Effortful, Shaped, PopNext, BeginNext, CallBackNext, CountNext, CheckNext, ArrivalNext;
    match a {
      case Submit(k) => SubmitDrops(s, k);
      case Signal(x) => SignalDrops(s, x);
      case Check(w) => CheckDrops(s, w);
      case Begin(w) => BeginDrops(s, w);
      case PopOne(w) => PopDrops(s, w);
      case _ => CallDrops(s, a);
    }
  }

  lemma SubmitDrops(s: System, k: nat)
    requires Enabled(s, Submit(k))
    ensures Effortful(Next(s, Submit(k))) < Effortful(s)
  {
    hide Effort, Waiting, E.IsAwake;
  }

  ghost predicate AllInternal(run: seq<Action>) {
    forall i :: 0 <= i < |run| ==> Internal(run[i])
  }

  /** Left alone, the system takes boundedly many steps. */
  lemma {:induction false} RunsEnd(s: System, run: seq<Action>, t: System)
    requires Inv(s) && Leads(s, run, t) && AllInternal(run)
    ensures |run| + Effortful(t) <= Effortful(s)
    decreases |run|
  {
    hide Enabled, Next, E.Inv, Shaped, NoUseAfterDestroy, FlagsFromCallbacks, AllServed, Effortful, Internal;
    if run != [] {
      InvKept(s, run[0]);
      EffortDrops(s, run[0]);
      assert AllInternal(run[1..]);
      RunsEnd(Next(s, run[0]), run[1..], t);
    }
  }

  /** A run that cannot be prolonged has delivered, to every listener that is alive, all that was not dropped. */
  lemma MaximalRunDelivers(s: System, run: seq<Action>, t: System, l: nat)
    requires Reachable(s) && Leads(s, run, t) && AllInternal(run) && !CanStep(t) && Alive(t, l) && !t.executor.stop
    ensures |run| <= Effortful(s)
    ensures t.listeners[l].queue.pending == [] && t.listeners[l].delivered == Surviving(t.listeners[l])
    ensures t.options[l].policy != DropNewest && 0 < t.listeners[l].arrived ==>
      var d := t.listeners[l].delivered; d != [] && d[|d| - 1] == t.listeners[l].arrived - 1
  {
    hide Reachable, Leads, AllInternal, CanStep, Inv, Rest, Effortful;
    ReachableInv(s);
    RunInv(s, run, t);
    RunsEnd(s, run, t);
    if !Rest(t) { RestOrStep(t); }
    ReachableAgain(s, run, t);
    RestIsFresh(t, l);
  }

  lemma ReachableAgain(s: System, run: seq<Action>, t: System)
    requires Reachable(s) && Leads(s, run, t)
    ensures Reachable(t)
  {
    hide Leads;
    var options: seq<Options>, workers: nat, first: seq<Action> :| 0 < workers
      && Leads(Start(options, workers), first, s);
    LeadsOn(Start(options, workers), first, s, run, t);
  }

  lemma {:induction false} LeadsOn(s: System, first: seq<Action>, t: System, second: seq<Action>, u: System)
    requires Leads(s, first, t) && Leads(t, second, u)
    ensures Leads(s, first + second, u)
    decreases |first|
  {
    hide Enabled, Next;
    if first == [] {
      assert first + second == second;
    } else {
      assert (first + second)[1..] == first[1..] + second;
      LeadsOn(Next(s, first[0]), first[1..], t, second, u);
    }
  }
}
