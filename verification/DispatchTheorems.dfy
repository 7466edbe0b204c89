/** What holds in every reachable state of the dispatch system, and where its runs end. */
module DispatchTheorems {
  import opened Counting
  import opened ListenerQueue
  import opened Dispatch
  import opened DispatchInvariant
  import E = CallbackExecutor

  /** `s` is reached from the start by some interleaving. */
  ghost predicate Reachable(s: System) {
    exists options: seq<Options>, workers: nat, run: seq<Action> :: 0 < workers
      && Leads(Start(options, workers), run, s)
  }

  lemma {:induction false} WorkersKept(s: System, run: seq<Action>, t: System)
    requires Leads(s, run, t)
    ensures |t.executor.workers| == |s.executor.workers|
    decreases |run|
  {
    hide Enabled, Next;
    if run != [] {
      StepKeepsWorkers(s, run[0]);
      WorkersKept(Next(s, run[0]), run[1..], t);
    }
  }

  lemma StepKeepsWorkers(s: System, a: Action)
    requires Enabled(s, a)
    ensures |Next(s, a).executor.workers| == |s.executor.workers|
  {
    hide Arrive, Pop, Deliver, Count, Submitting, Referenced;
  }

  lemma ReachableInv(s: System)
    requires Reachable(s)
    ensures Inv(s) && 0 < |s.executor.workers|
  {
    hide Inv, Leads;
    var options: seq<Options>, workers: nat, run: seq<Action> :| 0 < workers && Leads(Start(options, workers), run, s);
    StartInv(options, workers);
    RunInv(Start(options, workers), run, s);
    WorkersKept(Start(options, workers), run, s);
  }

  // ---------------------------------------------------------------- one drain task at a time

  /** Single flight: until a listener is destroyed, its drain task exists once when the flag is set, and not at all
      when it is clear. */
  lemma SingleFlight(s: System, l: nat)
    requires Reachable(s) && Alive(s, l)
    ensures Tally(FlagsOf(l), s.flags) + Tally(TasksOf(l), s.executor.tasks) + Tally(DrainsOf(l), s.drains)
         == Bit(s.listeners[l].scheduled)
  {
    hide E.Inv, Sound, HandsOver, Shaped, NoUseAfterDestroy, FlagsFromCallbacks;
    ReachableInv(s);
  }

  /** Callbacks of one listener never overlap, however many workers there are. */
  lemma CallbacksNeverOverlap(s: System, v: nat, w: nat)
    requires Reachable(s) && v < w < |s.drains| && Active(s.drains[v]) && Active(s.drains[w])
    ensures s.drains[v].target != s.drains[w].target
    ensures Alive(s, s.drains[v].target)
  {
    hide E.Inv, Sound, HandsOver, FlagsFromCallbacks, Reachable;
    ReachableInv(s);
    var l := s.drains[v].target;
    SingleFlight(s, l);
    if l == s.drains[w].target { TallyPair(DrainsOf(l), s.drains, v, w); }
  }

  /** No stranded sample: while samples wait, some thread is about to submit the drain task, or it is queued, or a
      worker is inside it. */
  lemma NoStrandedSample(s: System, l: nat)
    requires Reachable(s) && Alive(s, l) && s.listeners[l].queue.pending != []
    ensures || (exists k :: 0 <= k < |s.flags| && s.flags[k].target == l)
            || (exists i :: 0 <= i < |s.executor.tasks| && s.executor.tasks[i].target == l)
            || (exists w :: 0 <= w < |s.drains| && !s.drains[w].Off? && s.drains[w].target == l)
  {
    hide E.Inv, HandsOver, Accounted, Newest, WithinBound, Measured, Shaped, NoUseAfterDestroy, FlagsFromCallbacks,
        Reachable;
    ReachableInv(s);
    if 0 < Tally(FlagsOf(l), s.flags) {
      var k := TallySome(FlagsOf(l), s.flags);
    } else if 0 < Tally(TasksOf(l), s.executor.tasks) {
      var i := TallySome(TasksOf(l), s.executor.tasks);
    } else {
      var w := TallySome(DrainsOf(l), s.drains);
    }
  }

  // ---------------------------------------------------------------- order, bounds and metrics

  /** The sample that a worker has in hand for the listener, if there is one. */
  ghost function InFlight(s: System, l: nat): seq<nat>
    requires Alive(s, l)
  {
    var popped, delivered := s.listeners[l].popped, |s.listeners[l].delivered|;
    popped[if delivered <= |popped| then delivered else 0..]
  }

  /** delivered ++ in flight ++ pending lists, in order of arrival, every sample that was not lost. */
  lemma DeliveryOrder(s: System, l: nat)
    requires Reachable(s) && Alive(s, l)
    ensures var m := s.listeners[l];
      && m.delivered + InFlight(s, l) + m.queue.pending == Surviving(m)
      && |InFlight(s, l)| <= 1
      && (forall x :: x in InFlight(s, l) ==> exists w :: 0 <= w < |s.drains| && s.drains[w] == Holding(l, x))
      && Ascending(Surviving(m))
      && multiset(Surviving(m)) + multiset(m.queue.lost) == multiset(Range(0, m.arrived))
  {
    hide E.Inv, Newest, WithinBound, Measured, Shaped, NoUseAfterDestroy, FlagsFromCallbacks, Reachable, Ascending,
        Below;
    ReachableInv(s);
    var m := s.listeners[l];
    InHandIsDraining(l, s.drains);
    if InFlight(s, l) != [] {
      var w := TallySome(InHand(l), s.drains);
      assert s.drains[w] == Holding(l, InFlight(s, l)[0]);
    }
  }

  /** What each policy leaves waiting. */
  lemma WaitingPerPolicy(s: System, l: nat)
    requires Reachable(s) && Alive(s, l)
    ensures var o, m := s.options[l], s.listeners[l];
      && (Bounded(o) ==> |m.queue.pending| <= Bound(o))
      && (!o.policy.DropNewest? ==>
            && |m.queue.pending| <= m.arrived
            && m.queue.pending == Range(m.arrived - |m.queue.pending|, m.arrived))
      && (!Bounded(o) ==> m.queue.lost == [] && Surviving(m) == Range(0, m.arrived))
      && (o.metrics ==>
            && |m.queue.pending| <= m.queue.metrics.highWatermark
            && (Bounded(o) ==> m.queue.metrics.highWatermark <= Bound(o)))
  {
    hide E.Inv, HandsOver, Shaped, NoUseAfterDestroy, FlagsFromCallbacks, Reachable, Accounted, Load;
    ReachableInv(s);
    if !Bounded(s.options[l]) { UnboundedLosesNothing(s.options[l], s.listeners[l]); }
  }

  // ---------------------------------------------------------------- the high-water mark

  /** A state that the run goes through, the first and the last included. */
  ghost predicate Visits(s: System, run: seq<Action>, u: System) {
    exists k :: 0 <= k <= |run| && Leads(s, run[..k], u)
  }

  lemma {:induction false} LeadsUnique(s: System, run: seq<Action>, t: System, u: System)
    requires Leads(s, run, t) && Leads(s, run, u)
    ensures t == u
    decreases |run|
  {
    hide Enabled, Next;
    if run != [] { LeadsUnique(Next(s, run[0]), run[1..], t, u); }
  }

  /** A run taken apart at its last step. */
  lemma {:induction false} LeadsFront(s: System, run: seq<Action>, t: System) returns (u: System)
    requires run != [] && Leads(s, run, t)
    ensures Leads(s, run[..|run| - 1], u) && Enabled(u, run[|run| - 1]) && t == Next(u, run[|run| - 1])
    decreases |run|
  {
    hide Enabled, Next;
    if |run| == 1 {
      assert run[..0] == [] && run[1..] == [];
      u := s;
    } else {
      u := LeadsFront(Next(s, run[0]), run[1..], t);
      assert run[1..][..|run[1..]| - 1] == run[..|run| - 1][1..];
    }
  }

  lemma VisitsFront(s: System, run: seq<Action>, t: System, u: System)
    requires run != [] && Leads(s, run, t)
    ensures Visits(s, run[..|run| - 1], u) ==> Visits(s, run, u)
    ensures Visits(s, run, u) ==> u == t || Visits(s, run[..|run| - 1], u)
    ensures Visits(s, run, t)
  {
    hide Leads;
    var front := run[..|run| - 1];
    assert run[..|run|] == run;
    assert Leads(s, run[..|run|], t);
    if Visits(s, front, u) {
      var k :| 0 <= k <= |front| && Leads(s, front[..k], u);
      assert front[..k] == run[..k];
    }
    if Visits(s, run, u) {
      var k :| 0 <= k <= |run| && Leads(s, run[..k], u);
      if k == |run| { LeadsUnique(s, run, t, u); } else { assert front[..k] == run[..k]; }
    }
  }

  ghost function Length(s: System, l: nat): nat {
    if l < |s.listeners| then |s.listeners[l].queue.pending| else 0
  }

  /** A step raises the watermark exactly to the length of the queue after it. */
  lemma WatermarkStep(s: System, a: Action, l: nat)
    requires Enabled(s, a) && Inv(s) && Alive(s, l) && s.options[l].metrics && l < |Next(s, a).listeners|
    requires Alive(Next(s, a), l)
    ensures Next(s, a).listeners[l].queue.metrics.highWatermark
         == Max(s.listeners[l].queue.metrics.highWatermark, Length(Next(s, a), l))
  {
    hide Submitting, Referenced, E.Next, E.Enabled, Arrive, E.Inv, Accounted, Newest, HandsOver, Load;
    assert Served(s, l);
    if a.Arrival? && a.target == l { ArriveWatermark(s.options[l], s.listeners[l], a.n); }
  }

  /** The watermark is the high-water mark of the whole run: no state of the run has a longer queue, and one has a queue
      of that length. */
  lemma {:induction false} HighWaterMark(options: seq<Options>, workers: nat, run: seq<Action>, t: System, l: nat)
    requires Leads(Start(options, workers), run, t) && Alive(t, l) && t.options[l].metrics
    ensures var mark := t.listeners[l].queue.metrics.highWatermark;
      && (forall u :: Visits(Start(options, workers), run, u) ==> Length(u, l) <= mark)
      && (exists u :: Visits(Start(options, workers), run, u) && Length(u, l) == mark)
    decreases |run|
  {
    hide Inv, Next, Enabled, Leads, Visits;
    var s := Start(options, workers);
    if run == [] {
      StartVisits(s, t);
    } else {
      var u := LeadsFront(s, run, t);
      StartInv(options, workers);
      RunInv(s, run[..|run| - 1], u);
      AliveBefore(u, run[|run| - 1], l);
      HighWaterMark(options, workers, run[..|run| - 1], u, l);
      WatermarkStep(u, run[|run| - 1], l);
      forall x | Visits(s, run, x) ensures Length(x, l) <= t.listeners[l].queue.metrics.highWatermark {
        VisitsFront(s, run, t, x);
      }
      if u.listeners[l].queue.metrics.highWatermark < Length(t, l) {
        VisitsFront(s, run, t, t);
      } else {
        var x :| Visits(s, run[..|run| - 1], x) && Length(x, l) == u.listeners[l].queue.metrics.highWatermark;
        VisitsFront(s, run, t, x);
      }
    }
  }

  lemma StartVisits(s: System, t: System)
    requires Leads(s, [], t)
    ensures s == t && Visits(s, [], s) && forall u :: Visits(s, [], u) ==> u == s
  {
    assert Leads(s, [][..0], s);
  }

  lemma AliveBefore(s: System, a: Action, l: nat)
    requires Enabled(s, a) && Inv(s) && Alive(Next(s, a), l)
    ensures Alive(s, l) && s.options == Next(s, a).options && |s.listeners| == |Next(s, a).listeners|
  {
    hide Enabled, Next, E.Inv, AllServed;
    StaysAlive(s, a, l);
    OptionsKept(s, a);
  }

  /** Without metrics every counter stays zero. */
  lemma NothingMeasured(s: System, l: nat)
    requires Reachable(s) && Alive(s, l) && !s.options[l].metrics
    ensures s.listeners[l].queue.metrics == Metrics(0, 0, 0, 0)
  {
    hide E.Inv, HandsOver, NoUseAfterDestroy, FlagsFromCallbacks, Reachable, Accounted, Newest, Load;
    ReachableInv(s);
    assert Served(s, l);
  }

  // ---------------------------------------------------------------- conservation

  /** received = dropped + executed + waiting + popped but not counted, at every interleaving point. */
  lemma MetricsConserved(s: System, l: nat)
    requires Reachable(s) && Alive(s, l) && s.options[l].metrics
    ensures var m := s.listeners[l].queue.metrics;
      && m.received == s.listeners[l].arrived
      && m.received == m.dropped + m.executed + |s.listeners[l].queue.pending| + Tally(Uncounted(l), s.drains)
      && Tally(Uncounted(l), s.drains) <= 1
  {
    hide E.Inv, Sound, Shaped, NoUseAfterDestroy, FlagsFromCallbacks, Reachable;
    ReachableInv(s);
    Conservation(s.options[l], s.listeners[l]);
    UncountedIsDraining(l, s.drains);
    AllCounted(s.options[l], s.listeners[l]);
  }

  lemma AllCounted(o: Options, l: Listener)
    requires Sound(o, l) && o.metrics
    ensures l.queue.metrics.received == l.arrived
  {
  }

  lemma {:induction false} UncountedIsDraining(l: nat, ds: seq<Drain>)
    ensures Tally(Uncounted(l), ds) <= Tally(DrainsOf(l), ds)
  {
    if ds != [] { UncountedIsDraining(l, ds[1..]); }
  }

  /** Under drop-newest, what was accepted is never taken back: the survivors only grow at their end. */
  lemma {:induction false} AcceptedStays(s: System, run: seq<Action>, t: System, l: nat)
    requires Inv(s) && Leads(s, run, t) && Alive(t, l) && l < |s.options| && s.options[l].policy.DropNewest?
    ensures Alive(s, l) && Surviving(s.listeners[l]) <= Surviving(t.listeners[l])
    decreases |run|
  {
    hide Enabled, Next, E.Inv, Shaped, NoUseAfterDestroy, FlagsFromCallbacks, Served, Surviving;
    if run != [] {
      var u := Next(s, run[0]);
      InvKept(s, run[0]);
      OptionsKept(s, run[0]);
      AcceptedStays(u, run[1..], t, l);
      StaysAlive(s, run[0], l);
      AcceptedStep(s, run[0], l);
    }
  }

  lemma AcceptedStep(s: System, a: Action, l: nat)
    requires Enabled(s, a) && Alive(s, l) && Alive(Next(s, a), l) && s.options[l].policy.DropNewest?
    ensures Surviving(s.listeners[l]) <= Surviving(Next(s, a).listeners[l])
  {
    hide Submitting, Referenced, E.Next, E.Enabled, AdmitAll;
    if a.Arrival? && a.target == l {
      var m := s.listeners[l];
      DropNewestKeeps(s.options[l], m.queue, Range(m.arrived, m.arrived + a.n));
    } else if a.PopOne? && s.drains[a.worker].target == l {
      PopKeepsSurvivors(s.listeners[l]);
    }
  }

  lemma PopKeepsSurvivors(l: Listener)
    ensures Surviving(Pop(l).0) == Surviving(l)
  {
  }

  // ---------------------------------------------------------------- rest

  /** Nobody has a step to take but new arrivals, a stop, a destruction or a spurious wake-up. */
  ghost predicate Rest(s: System) {
    s.flags == [] && E.Quiet(s.executor)
  }

  lemma NothingCarried(s: System, l: nat)
    requires Inv(s) && Rest(s) && 0 < |s.executor.workers| && Alive(s, l)
    requires s.executor.stop ==> s.executor.tasks == []
    ensures Load(s, l) == 0 && Tally(InHand(l), s.drains) == 0 && Tally(Uncounted(l), s.drains) == 0
  {
    hide E.Inv, Served;
    E.QuietIsDone(s.executor);
    TallyNone(DrainsOf(l), s.drains);
    TallyNone(InHand(l), s.drains);
    TallyNone(Uncounted(l), s.drains);
  }

  /** At rest every survivor has reached the callback; under drop-oldest and latest-only the last one delivered is
      the last one that arrived, and with an unbounded queue all that arrived was delivered. */
  lemma RestIsFresh(s: System, l: nat)
    requires Reachable(s) && Rest(s) && Alive(s, l) && (s.executor.stop ==> s.executor.tasks == [])
    ensures var o, m := s.options[l], s.listeners[l];
      && m.queue.pending == [] && !m.scheduled
      && m.delivered == m.popped == Surviving(m)
      && multiset(m.delivered) + multiset(m.queue.lost) == multiset(Range(0, m.arrived))
      && (!o.policy.DropNewest? && 0 < m.arrived ==>
            m.delivered != [] && m.delivered[|m.delivered| - 1] == m.arrived - 1)
      && (!Bounded(o) ==> m.delivered == Range(0, m.arrived))
      && (o.metrics ==> m.queue.metrics.received == m.queue.metrics.dropped + m.queue.metrics.executed)
  {
    hide E.Inv, Shaped, NoUseAfterDestroy, FlagsFromCallbacks, Reachable, Load, Rest, Ascending, Below, Range;
    ReachableInv(s);
    NothingCarried(s, l);
    var o, m := s.options[l], s.listeners[l];
    RestingListener(o, m, s.drains, l);
  }

  lemma RestingListener(o: Options, m: Listener, ds: seq<Drain>, l: nat)
    requires Sound(o, m) && HandsOver(o, m, ds, l) && !m.scheduled
    requires Tally(InHand(l), ds) == 0 && Tally(Uncounted(l), ds) == 0
    ensures && m.queue.pending == []
      && m.delivered == m.popped == Surviving(m)
      && multiset(m.delivered) + multiset(m.queue.lost) == multiset(Range(0, m.arrived))
      && (!o.policy.DropNewest? && 0 < m.arrived ==>
            m.delivered != [] && m.delivered[|m.delivered| - 1] == m.arrived - 1)
      && (!Bounded(o) ==> m.delivered == Range(0, m.arrived))
      && (o.metrics ==> m.queue.metrics.received == m.queue.metrics.dropped + m.queue.metrics.executed)
  {
    hide Ascending, Below, Range;
    assert m.popped + m.queue.pending == m.popped;
    if o.metrics { Conservation(o, m); }
    if !Bounded(o) { UnboundedLosesNothing(o, m); }
  }
}
