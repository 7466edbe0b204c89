/** The listener and executor objects. Each locked block is a method that does to the fields what the step functions
    of the dispatch system do to the model. */
module ReaderListener {
  import opened Basics
  import opened Counting
  import opened ListenerQueue
  import E = CallbackExecutor

  /** The messages behind sample numbers. */
  ghost function Image<M>(arrivals: seq<M>, samples: seq<nat>): (r: seq<M>)
    requires Below(samples, |arrivals|)
    ensures |r| == |samples|
  {
    seq(|samples|, i requires 0 <= i < |samples| => arrivals[samples[i]])
  }

  lemma PushImage<M>(o: Options, arrivals: seq<M>, samples: seq<nat>, x: M)
    requires Below(samples, |arrivals|)
    ensures Below(Push(o, samples, |arrivals|), |arrivals| + 1)
    ensures Image(arrivals + [x], Push(o, samples, |arrivals|)) == Push(o, Image(arrivals, samples), x)
    ensures |Overflow(o, samples, |arrivals|)| == |Overflow(o, Image(arrivals, samples), x)|
  {
    var all, n := arrivals + [x], |arrivals|;
    ImageGrows(arrivals, [x], samples);
    assert Image(all, [n]) == [x];
    if 0 < o.capacity <= |samples| && o.policy.DropOldest? {
      ImageConcat(all, samples[1..], [n]);
      assert Image(all, samples[1..]) == Image(all, samples)[1..];
    } else if o.policy.LatestOnly? {
    } else {
      ImageConcat(all, samples, [n]);
    }
  }

  lemma ImageGrows<M>(arrivals: seq<M>, more: seq<M>, samples: seq<nat>)
    requires Below(samples, |arrivals|)
    ensures Below(samples, |arrivals + more|) && Image(arrivals + more, samples) == Image(arrivals, samples)
  {
  }

  lemma ImageConcat<M>(arrivals: seq<M>, a: seq<nat>, b: seq<nat>)
    requires Below(a, |arrivals|) && Below(b, |arrivals|)
    ensures Below(a + b, |arrivals|) && Image(arrivals, a + b) == Image(arrivals, a) + Image(arrivals, b)
  {
  }

  /** One arrival, seen through the messages. */
  lemma OneMessage<M>(o: Options, arrivals: seq<M>, l: Listener, x: M)
    requires l.arrived == |arrivals| && Below(l.queue.pending, |arrivals|)
    ensures var m, pending := ArriveOne(o, l), Image(arrivals, l.queue.pending);
      && m == l.(queue := m.queue, arrived := |arrivals| + 1) && Below(m.queue.pending, |arrivals + [x]|)
      && Image(arrivals + [x], m.queue.pending) == Push(o, pending, x)
      && m.queue.metrics == Record(o, l.queue.metrics, |Overflow(o, pending, x)|, Refuses(o, |pending|),
                                   |Push(o, pending, x)|)
  {
    hide Below, Image, Record;
    PushImage(o, arrivals, l.queue.pending, x);
    assert |arrivals + [x]| == |arrivals| + 1;
  }

  class DdsReaderListener<M> {
    const options: Options
    var pending: seq<M>
    var scheduled: bool
    var stopRequested: bool
    var metrics: Metrics
    /** The messages handed to the callback, in order. */
    var calls: seq<M>
    ghost var arrivals: seq<M>
    ghost var model: Listener

    ghost predicate Valid()
      reads this
    {
      && model.arrived == |arrivals| && Below(model.queue.pending, |arrivals|) && Below(model.delivered, |arrivals|)
      && pending == Image(arrivals, model.queue.pending) && calls == Image(arrivals, model.delivered)
      && metrics == model.queue.metrics && scheduled == model.scheduled && stopRequested == model.stop
    }

    constructor (options: Options)
      ensures Valid() && this.options == options && model == NewListener() && arrivals == []
    {
      this.options := options;
      pending, scheduled, stopRequested, metrics, calls := [], false, false, Metrics(0, 0, 0, 0), [];
      arrivals, model := [], NewListener();
    }

    method RecordDropLocked(count: nat)
      modifies this`metrics
      ensures metrics ==
        if options.metrics then old(metrics).(dropped := old(metrics).dropped + count) else old(metrics)
    {
      if options.metrics { metrics := metrics.(dropped := metrics.dropped + count); }
    }

    method EnqueuePendingMessageLocked(message: M)
      requires Valid()
      modifies this
      ensures Valid() && model == ArriveOne(options, old(model)) && arrivals == old(arrivals) + [message]
      ensures pending == Push(options, old(pending), message) && calls == old(calls)
    {
      hide Below, Image, ArriveOne, Max;
      OneMessage(options, arrivals, model, message);
      ImageGrows(arrivals, [message], model.delivered);
      model := ArriveOne(options, model);
      arrivals := arrivals + [message];
      if options.metrics { metrics := metrics.(received := metrics.received + 1); }
      var capacity := options.capacity;
      match options.policy {
        case DropNewest =>
          if 0 < capacity && capacity <= |pending| {
            RecordDropLocked(1);
            return;
          }
          pending := pending + [message];
        case DropOldest =>
          if 0 < capacity && capacity <= |pending| {
            pending := pending[1..];
            RecordDropLocked(1);
          }
          pending := pending + [message];
        case LatestOnly =>
          if pending != [] {
            RecordDropLocked(|pending|);
            pending := [];
          }
          pending := pending + [message];
      }
      if options.metrics {
        metrics := metrics.(highWatermark := Max(metrics.highWatermark, |pending|));
      }
    }

    /** The locked block of `on_data_available` for the messages that `take_next_sample` returned. */
    method OnDataAvailable(ready: seq<M>) returns (shouldSchedule: bool)
      requires Valid()
      modifies this
      ensures Valid() && (model, shouldSchedule) == Arrive(options, old(model), |ready|)
      ensures arrivals == if options.handler && !old(stopRequested) then old(arrivals) + ready else old(arrivals)
      ensures calls == old(calls)
    {
      hide Below, Image, ArriveOne, AdmitAll;
      if !options.handler || ready == [] { return false; }
      shouldSchedule := false;
      if stopRequested { return; }
      for i := 0 to |ready|
        invariant Valid() && model == ArriveEach(options, old(model), i)
        invariant arrivals == old(arrivals) + ready[..i] && calls == old(calls)
      {
        EnqueuePendingMessageLocked(ready[i]);
        assert ready[..i + 1] == ready[..i] + [ready[i]];
      }
      assert ready[..|ready|] == ready;
      ArriveEachIsBatch(options, old(model), |ready|);
      if !scheduled && pending != [] {
        scheduled := true;
        model := model.(scheduled := true);
        shouldSchedule := true;
      }
    }

    /** The locked block at the head of the drain loop. */
    method PopLocked() returns (message: Option<M>)
      requires Valid()
      modifies this
      ensures Valid() && model == Pop(old(model)).0 && (message.Some? <==> Pop(old(model)).1.Took?)
      ensures message.Some? ==>
        && pending == old(pending)[1..] && message.value == old(pending)[0]
        && Pop(old(model)).1.sample < |arrivals| && arrivals[Pop(old(model)).1.sample] == message.value
      ensures message.None? ==> pending == old(pending) && !scheduled
      ensures arrivals == old(arrivals) && calls == old(calls) && stopRequested == old(stopRequested)
      ensures metrics == old(metrics) && (message.Some? ==> scheduled == old(scheduled))
    {
      model := Pop(model).0;
      if stopRequested {
        scheduled := false;
        return None;
      }
      if pending == [] {
        scheduled := false;
        return None;
      }
      message := Some(pending[0]);
      pending := pending[1..];
      assert Image(arrivals, old(model).queue.pending)[1..] == Image(arrivals, model.queue.pending);
    }

    method CountLocked()
      requires Valid()
      modifies this
      ensures Valid() && model == Count(old(model)) && pending == old(pending) && calls == old(calls)
      ensures scheduled == old(scheduled) && stopRequested == old(stopRequested)
      ensures metrics == old(metrics).(executed := old(metrics).executed + 1)
    {
      metrics := metrics.(executed := metrics.executed + 1);
      model := Count(model);
    }

    /** When no sample arrives meanwhile, the drain task hands over exactly the queue, in order, and ends. */
    method ExecutePendingCallbacks()
      requires Valid() && options.handler
      modifies this
      ensures Valid() && !scheduled
      ensures if old(stopRequested) then pending == old(pending) && calls == old(calls)
        else pending == [] && calls == old(calls) + old(pending)
      ensures metrics == if options.metrics && !old(stopRequested)
        then old(metrics).(executed := old(metrics).executed + |old(pending)|) else old(metrics)
    {
      hide Below, Image;
      ghost var done := 0;
      while true
        invariant Valid() && stopRequested == old(stopRequested) && done + |pending| == |old(pending)|
        invariant pending == old(pending)[done..] && calls == old(calls) + old(pending)[..done]
        invariant stopRequested ==> done == 0
        invariant metrics ==
          if options.metrics then old(metrics).(executed := old(metrics).executed + done) else old(metrics)
        decreases |pending|
      {
        ghost var sample := Pop(model).1;
        var message := PopLocked();
        if message.None? { break; }
        Call(message.value, sample.sample);
        if options.metrics { CountLocked(); }
        assert old(pending)[..done + 1] == old(pending)[..done] + [old(pending)[done]];
        done := done + 1;
      }
    }

    /** The callback, outside the lock. */
    method Call(message: M, ghost sample: nat)
      requires Valid() && options.handler && sample < |arrivals| && arrivals[sample] == message
      modifies this`calls, this`model
      ensures Valid() && model == Deliver(options, old(model), sample) && calls == old(calls) + [message]
    {
      ImageConcat(arrivals, model.delivered, [sample]);
      model := Deliver(options, model, sample);
      calls := calls + [message];
    }

    method Destructor()
      requires Valid()
      modifies this
      ensures Valid() && model == Destroy(old(model)) && calls == old(calls)
      ensures stopRequested && pending == [] && !scheduled && metrics == old(metrics)
    {
      stopRequested := true;
      pending := [];
      scheduled := false;
      model := Destroy(model);
    }
  }

  class DdsCallbackExecutor {
    var tasks: seq<E.Task>
    var stopRequested: bool
    /** What each thread of the pool does: whether it waits on the condition variable, runs a task or has left. */
    var workers: seq<E.Worker>
    ghost var model: E.Executor

    ghost predicate Valid()
      reads this
    {
      tasks == model.tasks && stopRequested == model.stop && workers == model.workers
    }

    constructor (n: nat)
      ensures Valid() && model == E.Start(n)
    {
      tasks, stopRequested, workers, model := [], false, seq(n, _ => E.Awake), E.Start(n);
    }

    /** The locked block of Submit: the task goes to the end of the queue. */
    method SubmitLocked(task: E.Task, ghost from: E.Submitter)
      requires Valid() && E.Enabled(model, E.Submit(task.target, from))
      requires task == E.Task(|model.submitted|, task.target, stopRequested && from.Outside?)
      modifies this
      ensures Valid() && tasks == old(tasks) + [task] && model == E.Next(old(model), E.Submit(task.target, from))
    {
      tasks := tasks + [task];
      model := E.Next(model, E.Submit(task.target, from));
    }

    /** The end of Submit, after the lock. When somebody waits, exactly one of those who do is woken and nobody else is
        touched; the wake-up that the new task was owed is thereby paid, so none is lost. */
    method NotifyOne()
      requires Valid() && 0 < model.notices && E.WakeUps(model)
      modifies `workers, `model
      ensures Valid() && E.WakeUps(model) && model.notices == old(model).notices - 1
      ensures if E.NoneAsleep(old(workers)) then workers == old(workers)
        else exists s :: 0 <= s < |old(workers)| && old(workers)[s].Asleep? && workers == old(workers)[s := E.Awake]
      ensures Tally(E.IsAsleep, workers) + Bit(!E.NoneAsleep(old(workers))) == Tally(E.IsAsleep, old(workers))
      ensures exists s :: E.Enabled(old(model), E.NotifyOne(s)) && model == E.Next(old(model), E.NotifyOne(s))
    {
      var s := 0;
      while s < |workers| && !workers[s].Asleep?
        invariant s <= |workers|
        invariant forall i :: 0 <= i < s ==> !workers[i].Asleep?
      {
        s := s + 1;
      }
      E.WakeUpsKept(model, E.NotifyOne(s));
      model := E.Next(model, E.NotifyOne(s));
      if s < |workers| {
        TallyUpdate(E.IsAsleep, workers, s, E.Awake);
        workers := workers[s := E.Awake];
      }
    }

    /** The locked block of the destructor. */
    method RequestStop()
      requires Valid() && !stopRequested
      modifies this
      ensures Valid() && stopRequested && model == E.Next(old(model), E.RequestStop)
    {
      stopRequested := true;
      model := E.Next(model, E.RequestStop);
    }

    /** The end of the destructor's announcement: nobody waits any more, and nobody else is touched. */
    method NotifyAll()
      requires Valid() && model.broadcast
      modifies `workers, `model
      ensures Valid() && model == E.Next(old(model), E.NotifyAll)
      ensures E.NoneAsleep(workers) && |workers| == |old(workers)|
      ensures forall i :: 0 <= i < |workers| && !old(workers)[i].Asleep? ==> workers[i] == old(workers)[i]
    {
      for i := 0 to |workers|
        modifies `workers
        invariant |workers| == |old(workers)|
        invariant forall j :: 0 <= j < i ==> workers[j] == E.Wake(old(workers)[j])
        invariant forall j :: i <= j < |workers| ==> workers[j] == old(workers)[j]
      {
        if workers[i].Asleep? { workers := workers[i := E.Awake]; }
      }
      model := E.Next(model, E.NotifyAll);
    }

    /** The locked block of `Run`: None when the worker has to wait or to leave. */
    method Take(worker: nat) returns (task: Option<E.Task>, leave: bool)
      requires Valid() && E.Enabled(model, E.Check(worker))
      modifies this
      ensures Valid() && model == E.Next(old(model), E.Check(worker))
      ensures leave <==> workers[worker].Exited?
      ensures task == if workers[worker].Running? then Some(workers[worker].task) else None
    {
      model := E.Next(model, E.Check(worker));
      if tasks == [] {
        workers := workers[worker := if stopRequested then E.Exited else E.Asleep];
        return None, stopRequested;
      }
      task, leave := Some(tasks[0]), false;
      workers := workers[worker := E.Running(tasks[0])];
      tasks := tasks[1..];
    }

    /** A worker alone, after a stop: it runs what is queued, oldest first, and leaves. */
    method Run(worker: nat) returns (ran: seq<E.Task>)
      requires Valid() && stopRequested && E.Enabled(model, E.Check(worker))
      modifies this
      ensures Valid() && tasks == [] && ran == old(tasks)
      ensures worker < |workers| && workers[worker].Exited?
    {
      ran := [];
      while true
        invariant Valid() && stopRequested && E.Enabled(model, E.Check(worker))
        invariant ran + tasks == old(tasks)
        decreases |tasks|
      {
        var task, leave := Take(worker);
        if leave { return; }
        ran := ran + [task.value];
        workers := workers[worker := E.Awake];
        model := E.Next(model, E.Finish(worker));
      }
    }
  }
}
