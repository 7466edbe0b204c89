/** Every step of the dispatch system keeps the invariant. */
module DispatchInvariant {
  import opened Counting
  import opened ListenerQueue
  import opened Dispatch
  import E = CallbackExecutor

  predicate ByWorker(a: Action) {
    a.Check? || a.Begin? || a.PopOne? || a.CallBack? || a.CountCall?
  }

  lemma StopKept(o: Options, l: Listener, n: nat, sample: nat)
    ensures Arrive(o, l, n).0.stop == Pop(l).0.stop == Deliver(o, l, sample).stop == Count(l).stop == l.stop
  {
  }

  lemma Unreferenced(s: System, l: nat)
    requires !Referenced(s, l)
    ensures forall k :: 0 <= k < |s.flags| ==> s.flags[k].target != l
    ensures forall w :: 0 <= w < |s.drains| && Active(s.drains[w]) ==> s.drains[w].target != l
  {
  }

  lemma ShapedByThread(s: System, a: Action)
    requires Enabled(s, a) && Shaped(s) && !ByWorker(a)
    ensures Shaped(Next(s, a))
  {
    hide Arrive, Pop, Deliver, Count, Submitting, Referenced, Attached, PopNext, BeginNext, CallBackNext, CountNext,
        CheckNext;
    var t := Next(s, a);
    match a {
      case Arrival(l, n, from) => StopKept(s.options[l], s.listeners[l], n, 0);
      case DestroyListener(l) => Unreferenced(s, l);
      case Submit(k) => assert forall i :: 0 <= i < |t.flags| ==> t.flags[i] == s.flags[if i < k then i else i + 1];
      case _ =>
    }
  }

  lemma ShapedByWorker(s: System, a: Action)
    requires Enabled(s, a) && Shaped(s) && ByWorker(a)
    ensures Shaped(Next(s, a))
  {
    hide Arrive, Pop, Deliver, Count, Submitting, Referenced, ArrivalNext, Shaped;
    match a {
      case Check(w) => ShapedByCheck(s, w);
      case _ => ShapedByTask(s, a);
    }
  }

  lemma ShapedByCheck(s: System, w: nat)
    requires Enabled(s, Check(w)) && Shaped(s)
    ensures Shaped(CheckNext(s, w))
  {
  }

  lemma ShapedByTask(s: System, a: Action)
    requires Enabled(s, a) && Shaped(s) && (a.Begin? || a.PopOne? || a.CallBack? || a.CountCall?)
    ensures Shaped(Next(s, a))
  {
    hide Arrive, Pop, Deliver, Count, Submitting, Referenced, ArrivalNext, CheckNext;
    match a {
      case Begin(w) =>
      case PopOne(w) => StopKept(s.options[s.drains[w].target], s.listeners[s.drains[w].target], 0, 0);
      case CallBack(w) => StopKept(s.options[s.drains[w].target], s.listeners[s.drains[w].target], 0,
          s.drains[w].sample);
      case CountCall(w) => StopKept(s.options[s.drains[w].target], s.listeners[s.drains[w].target], 0, 0);
    }
  }

  lemma NoUseAfterDestroyKept(s: System, a: Action)
    requires Enabled(s, a) && Shaped(s) && NoUseAfterDestroy(s)
    ensures NoUseAfterDestroy(Next(s, a))
  {
    hide Enabled, Next, Shaped, NoUseAfterDestroy;
    if ByWorker(a) { NoUseKeptByWorker(s, a); } else { NoUseKeptByThread(s, a); }
  }

  lemma NoUseKeptByThread(s: System, a: Action)
    requires Enabled(s, a) && Shaped(s) && NoUseAfterDestroy(s) && !ByWorker(a)
    ensures NoUseAfterDestroy(Next(s, a))
  {
    hide Arrive, Pop, Deliver, Count, Submitting, Referenced, PopNext, BeginNext, CallBackNext, CountNext, CheckNext;
    match a {
      case Arrival(l, n, from) => StopKept(s.options[l], s.listeners[l], n, 0);
      case DestroyListener(l) => Unreferenced(s, l);
      case _ =>
    }
  }

  lemma NoUseKeptByWorker(s: System, a: Action)
    requires Enabled(s, a) && Shaped(s) && NoUseAfterDestroy(s) && ByWorker(a)
    ensures NoUseAfterDestroy(Next(s, a))
  {
    hide Arrive, Pop, Deliver, Count, Submitting, Referenced, ArrivalNext;
    match a {
      case PopOne(w) => StopKept(s.options[s.drains[w].target], s.listeners[s.drains[w].target], 0, 0);
      case CallBack(w) => StopKept(s.options[s.drains[w].target], s.listeners[s.drains[w].target], 0,
          s.drains[w].sample);
      case CountCall(w) => StopKept(s.options[s.drains[w].target], s.listeners[s.drains[w].target], 0, 0);
      case _ =>
    }
  }

  lemma FlagsFromCallbacksKept(s: System, a: Action)
    requires Enabled(s, a) && Shaped(s) && FlagsFromCallbacks(s)
    ensures FlagsFromCallbacks(Next(s, a))
  {
    hide Enabled, Next, Shaped, FlagsFromCallbacks;
    if ByWorker(a) { FlagsKeptByWorker(s, a); } else { FlagsKeptByThread(s, a); }
  }

  lemma FlagsKeptByThread(s: System, a: Action)
    requires Enabled(s, a) && Shaped(s) && FlagsFromCallbacks(s) && !ByWorker(a)
    ensures FlagsFromCallbacks(Next(s, a))
  {
    hide Arrive, Pop, Deliver, Count, Referenced, PopNext, BeginNext, CallBackNext, CountNext, CheckNext;
    var t := Next(s, a);
    if a.Submit? {
      assert forall i :: 0 <= i < |t.flags| ==> t.flags[i] == s.flags[if i < a.flag then i else i + 1];
    }
  }

  lemma FlagsKeptByWorker(s: System, a: Action)
    requires Enabled(s, a) && Shaped(s) && FlagsFromCallbacks(s) && ByWorker(a)
    ensures FlagsFromCallbacks(Next(s, a))
  {
    hide Arrive, Pop, Deliver, Count, Referenced, ArrivalNext;
  }

  // ---------------------------------------------------------------- one listener at a time

  lemma DrainMoves(ds: seq<Drain>, w: nat, d: Drain, l: nat)
    requires w < |ds|
    ensures Tally(DrainsOf(l), ds[w := d]) + DrainsOf(l)(ds[w]) == Tally(DrainsOf(l), ds) + DrainsOf(l)(d)
    ensures Tally(InHand(l), ds[w := d]) + InHand(l)(ds[w]) == Tally(InHand(l), ds) + InHand(l)(d)
    ensures Tally(Uncounted(l), ds[w := d]) + Uncounted(l)(ds[w]) == Tally(Uncounted(l), ds) + Uncounted(l)(d)
  {
    TallyUpdate(DrainsOf(l), ds, w, d);
    TallyUpdate(InHand(l), ds, w, d);
    TallyUpdate(Uncounted(l), ds, w, d);
  }

  lemma ServedAfterArrival(s: System, target: nat, n: nat, from: E.Submitter, l: nat)
    requires Enabled(s, Arrival(target, n, from)) && Shaped(s) && Alive(s, l) && Served(s, l)
    ensures Served(ArrivalNext(s, target, n, from), l)
  {
    hide Arrive, Sound, Submitting;
    TallyAppend(FlagsOf(l), s.flags, Flag(target, from));
    if l == target {
      ArriveSound(s.options[l], s.listeners[l], n);
    }
  }

  lemma ServedAfterSubmit(s: System, k: nat, l: nat)
    requires Enabled(s, Submit(k)) && Shaped(s) && Alive(s, l) && Served(s, l)
    ensures Served(Next(s, Submit(k)), l)
  {
    hide Sound, HandsOver;
    TallyRemove(FlagsOf(l), s.flags, k);
    var x := E.Next(s.executor, E.Submit(s.flags[k].target, s.flags[k].from));
    TallyAppend(TasksOf(l), s.executor.tasks, x.tasks[|x.tasks| - 1]);
  }

  predicate Touches(d: Drain, l: nat) {
    (d.Holding? || d.Called?) && d.target == l
  }

  /** A worker that neither holds nor has just called back a sample of the listener does not matter to it. */
  lemma HandsOverElsewhere(o: Options, listener: Listener, ds: seq<Drain>, w: nat, d: Drain, l: nat)
    requires w < |ds| && HandsOver(o, listener, ds, l) && !Touches(ds[w], l) && !Touches(d, l)
    ensures HandsOver(o, listener, ds[w := d], l)
  {
    DrainMoves(ds, w, d, l);
  }

  lemma LoadMoves(s: System, t: System, w: nat, d: Drain, l: nat)
    requires w < |s.drains| && t.drains == s.drains[w := d] && t.flags == s.flags
    requires t.executor.tasks == s.executor.tasks
    ensures Load(t, l) + DrainsOf(l)(s.drains[w]) == Load(s, l) + DrainsOf(l)(d)
  {
    DrainMoves(s.drains, w, d, l);
  }

  lemma ServedAfterCheck(s: System, w: nat, l: nat)
    requires Enabled(s, Check(w)) && Shaped(s) && Alive(s, l) && Served(s, l)
    ensures Served(CheckNext(s, w), l)
  {
    hide Sound, HandsOver;
    if s.executor.tasks != [] {
      var d := Starting(s.executor.tasks[0].target);
      HandsOverElsewhere(s.options[l], s.listeners[l], s.drains, w, d, l);
      DrainMoves(s.drains, w, d, l);
    }
  }

  lemma ServedAfterBegin(s: System, w: nat, l: nat)
    requires Enabled(s, Begin(w)) && Shaped(s) && Alive(s, l) && Served(s, l)
    ensures Served(BeginNext(s, w), l)
  {
    hide Sound, HandsOver, Load;
    var t := BeginNext(s, w);
    HandsOverElsewhere(s.options[l], s.listeners[l], s.drains, w, t.drains[w], l);
    LoadMoves(s, t, w, t.drains[w], l);
  }

  lemma DrainPositive(s: System, w: nat, l: nat)
    requires w < |s.drains| && !s.drains[w].Off? && s.drains[w].target == l
    ensures 0 < Tally(DrainsOf(l), s.drains) <= Load(s, l)
    ensures Load(s, l) == 1 ==>
      forall v :: 0 <= v < |s.drains| && v != w && !s.drains[v].Off? ==> s.drains[v].target != l
  {
    TallySplit(DrainsOf(l), s.drains, w);
    forall v | 0 <= v < |s.drains| && v != w && !s.drains[v].Off? && s.drains[v].target == l ensures 2 <= Load(s, l) {
      if v < w { TallyPair(DrainsOf(l), s.drains, v, w); } else { TallyPair(DrainsOf(l), s.drains, w, v); }
    }
  }

  lemma ServedAfterPop(s: System, w: nat, l: nat)
    requires Enabled(s, PopOne(w)) && Shaped(s) && Alive(s, l) && Served(s, l)
    ensures Served(PopNext(s, w), l)
  {
    hide Sound, Pop, HandsOver, Load;
    var target := s.drains[w].target;
    var t := PopNext(s, w);
    LoadMoves(s, t, w, t.drains[w], l);
    if l == target {
      PopSound(s.options[l], s.listeners[l]);
      DrainPositive(s, w, l);
      PopFlag(s.options[l], s.listeners[l]);
      PopHandsOver(s, w, l);
    } else {
      HandsOverElsewhere(s.options[l], s.listeners[l], s.drains, w, t.drains[w], l);
    }
  }

  lemma PopHandsOver(s: System, w: nat, l: nat)
    requires Enabled(s, PopOne(w)) && Shaped(s) && Alive(s, l) && Served(s, l) && s.drains[w].target == l
    ensures HandsOver(s.options[l], PopNext(s, w).listeners[l], PopNext(s, w).drains, l)
  {
    hide Sound, Pop, Load;
    PopSound(s.options[l], s.listeners[l]);
    PopFlag(s.options[l], s.listeners[l]);
    DrainPositive(s, w, l);
    DrainMoves(s.drains, w, PopNext(s, w).drains[w], l);
  }

  lemma PopFlag(o: Options, l: Listener)
    requires Sound(o, l)
    ensures Pop(l).0.scheduled == (Pop(l).1.Took? && l.scheduled)
    ensures Pop(l).0.delivered == l.delivered && (Pop(l).1.Cleared? ==> Pop(l).0.popped == l.popped)
  {
  }

  lemma ServedAfterCallBack(s: System, w: nat, l: nat)
    requires Enabled(s, CallBack(w)) && Shaped(s) && Alive(s, l) && Served(s, l)
    ensures Served(CallBackNext(s, w), l)
  {
    hide Sound, HandsOver, Load;
    var d, t := s.drains[w], CallBackNext(s, w);
    LoadMoves(s, t, w, t.drains[w], l);
    if l == d.target {
      DeliverSound(s.options[l], s.listeners[l], d.sample);
      CallBackHandsOver(s, w, l);
    } else {
      HandsOverElsewhere(s.options[l], s.listeners[l], s.drains, w, t.drains[w], l);
    }
  }

  lemma CallBackHandsOver(s: System, w: nat, l: nat)
    requires Enabled(s, CallBack(w)) && Shaped(s) && Alive(s, l) && Served(s, l) && s.drains[w].target == l
    ensures HandsOver(s.options[l], CallBackNext(s, w).listeners[l], CallBackNext(s, w).drains, l)
  {
    hide Sound, Load;
    var m, t := s.listeners[l], CallBackNext(s, w);
    DrainPositive(s, w, l);
    DrainMoves(s.drains, w, t.drains[w], l);
    HandlerSet(s.options[l], m);
    HoldsOne(s.drains, w, l);
    assert m.popped == m.delivered + [s.drains[w].sample];
  }

  lemma HoldsOne(ds: seq<Drain>, w: nat, l: nat)
    requires w < |ds| && ds[w].Holding? && ds[w].target == l && Tally(DrainsOf(l), ds) <= 1
    ensures Tally(InHand(l), ds) == 1
  {
    TallySplit(InHand(l), ds, w);
    InHandIsDraining(l, ds);
  }

  lemma {:induction false} InHandIsDraining(l: nat, ds: seq<Drain>)
    ensures Tally(InHand(l), ds) <= Tally(DrainsOf(l), ds)
  {
    if ds != [] { InHandIsDraining(l, ds[1..]); }
  }

  lemma HandlerSet(o: Options, l: Listener)
    requires Sound(o, l) && l.popped != []
    ensures o.handler
  {
  }

  lemma ServedAfterCount(s: System, w: nat, l: nat)
    requires Enabled(s, CountCall(w)) && Shaped(s) && Alive(s, l) && Served(s, l)
    ensures Served(CountNext(s, w), l)
  {
    hide Sound, HandsOver, Load;
    var d, t := s.drains[w], CountNext(s, w);
    LoadMoves(s, t, w, t.drains[w], l);
    if l == d.target {
      CountSound(s.options[l], s.listeners[l]);
      CountHandsOver(s, w, l);
    } else {
      HandsOverElsewhere(s.options[l], s.listeners[l], s.drains, w, t.drains[w], l);
    }
  }

  lemma CountHandsOver(s: System, w: nat, l: nat)
    requires Enabled(s, CountCall(w)) && Shaped(s) && Alive(s, l) && Served(s, l) && s.drains[w].target == l
    ensures HandsOver(s.options[l], CountNext(s, w).listeners[l], CountNext(s, w).drains, l)
  {
    hide Sound, Load;
    DrainMoves(s.drains, w, Draining(l), l);
  }

  // ---------------------------------------------------------------- the step and the run

  lemma StaysAlive(s: System, a: Action, l: nat)
    requires Enabled(s, a) && Shaped(s) && Alive(Next(s, a), l)
    ensures Alive(s, l)
  {
    hide Arrive, Pop, Deliver, Count, Submitting, Referenced;
    match a {
      case Arrival(m, n, from) => StopKept(s.options[m], s.listeners[m], n, 0);
      case PopOne(w) => StopKept(s.options[s.drains[w].target], s.listeners[s.drains[w].target], 0, 0);
      case CallBack(w) => StopKept(s.options[s.drains[w].target], s.listeners[s.drains[w].target], 0,
          s.drains[w].sample);
      case CountCall(w) => StopKept(s.options[s.drains[w].target], s.listeners[s.drains[w].target], 0, 0);
      case _ =>
    }
  }

  lemma ServedKept(s: System, a: Action, l: nat)
    requires Enabled(s, a) && Shaped(s) && Shaped(Next(s, a)) && Alive(Next(s, a), l) && Alive(s, l) && Served(s, l)
    ensures Served(Next(s, a), l)
  {
    hide Sound, HandsOver, Shaped, PopNext, BeginNext, CallBackNext, CountNext, CheckNext, ArrivalNext, Submitting,
        Referenced;
    match a {
      case Arrival(m, n, from) => ServedAfterArrival(s, m, n, from, l);
      case Submit(k) => ServedAfterSubmit(s, k, l);
      case Signal(x) =>
      case Check(w) => ServedAfterCheck(s, w, l);
      case Begin(w) => ServedAfterBegin(s, w, l);
      case PopOne(w) => ServedAfterPop(s, w, l);
      case CallBack(w) => ServedAfterCallBack(s, w, l);
      case CountCall(w) => ServedAfterCount(s, w, l);
      case DestroyListener(m) =>
    }
  }

  lemma ExecutorKept(s: System, a: Action)
    requires Enabled(s, a) && E.Inv(s.executor)
    ensures E.Inv(Next(s, a).executor)
  {
    hide E.Inv, E.Next, E.Enabled, Arrive, Pop, Deliver, Count, Submitting, Referenced;
    match a {
      case Submit(k) => E.InvKept(s.executor, E.Submit(s.flags[k].target, s.flags[k].from));
      case Signal(x) => E.InvKept(s.executor, x);
      case Check(w) => E.InvKept(s.executor, E.Check(w));
      case Begin(w) => CanFinish(s.executor, w); E.InvKept(s.executor, E.Finish(w));
      case PopOne(w) => CanFinish(s.executor, w); E.InvKept(s.executor, E.Finish(w));
      case _ =>
    }
  }

  lemma CanFinish(x: E.Executor, w: nat)
    requires w < |x.workers| && x.workers[w].Running?
    ensures E.Enabled(x, E.Finish(w))
  {
  }

  lemma InvKept(s: System, a: Action)
    requires Enabled(s, a) && Inv(s)
    ensures Inv(Next(s, a))
  {
    hide E.Inv, Shaped, NoUseAfterDestroy, FlagsFromCallbacks, Served, Enabled, Next;
    ExecutorKept(s, a);
    if ByWorker(a) { ShapedByWorker(s, a); } else { ShapedByThread(s, a); }
    NoUseAfterDestroyKept(s, a);
    FlagsFromCallbacksKept(s, a);
    AllServedKept(s, a);
  }

  lemma AllServedKept(s: System, a: Action)
    requires Enabled(s, a) && Shaped(s) && Shaped(Next(s, a)) && AllServed(s)
    ensures AllServed(Next(s, a))
  {
    hide Served, Enabled, Next;
    var t := Next(s, a);
    forall l | 0 <= l < |t.listeners| && Alive(t, l) ensures Served(t, l) {
      StaysAlive(s, a, l);
      ServedKept(s, a, l);
    }
  }

  ghost predicate Leads(s: System, run: seq<Action>, t: System)
    decreases |run|
  {
    if run == [] then s == t else Enabled(s, run[0]) && Leads(Next(s, run[0]), run[1..], t)
  }

  lemma OptionsKept(s: System, a: Action)
    requires Enabled(s, a)
    ensures Next(s, a).options == s.options && |Next(s, a).listeners| == |s.listeners|
  {
    hide Arrive, Pop, Deliver, Count, Submitting, Referenced, E.Next, E.Enabled;
  }

  /** The invariant holds after any interleaving of any length, and the options are those of the start. */
  lemma {:induction false} RunInv(s: System, run: seq<Action>, t: System)
    requires Inv(s) && Leads(s, run, t)
    ensures Inv(t) && t.options == s.options && |t.listeners| == |s.listeners|
    decreases |run|
  {
    hide Inv, Next, Enabled;
    if run != [] {
      InvKept(s, run[0]);
      OptionsKept(s, run[0]);
      RunInv(Next(s, run[0]), run[1..], t);
    }
  }
}
