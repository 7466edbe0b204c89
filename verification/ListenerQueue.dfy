/** The queue that a reader listener keeps between the DDS threads and its drain task.

    Samples that overflow are remembered in `lost`, so that nothing disappears from the model unnoticed. */
module ListenerQueue {

  datatype Policy = DropNewest | DropOldest | LatestOnly

  /** `capacity` 0 means unbounded; `handler` says whether a valid callback was set. */
  datatype Options = Options(capacity: nat, policy: Policy, metrics: bool, handler: bool)

  datatype Metrics = Metrics(received: nat, dropped: nat, executed: nat, highWatermark: nat)

  datatype Queue<M> = Queue(pending: seq<M>, lost: seq<M>, metrics: Metrics)

  function Max(a: nat, b: nat): nat {
    if a < b then b else a
  }

  /** The samples pushed out, or refused, when `x` arrives. */
  function Overflow<M>(o: Options, pending: seq<M>, x: M): seq<M> {
    var full := 0 < o.capacity <= |pending|;
    match o.policy
    case DropNewest => if full then [x] else []
    case DropOldest => if full then pending[..1] else []
    case LatestOnly => pending
  }

  function Push<M>(o: Options, pending: seq<M>, x: M): seq<M> {
    var full := 0 < o.capacity <= |pending|;
    match o.policy
    case DropNewest => if full then pending else pending + [x]
    case DropOldest => if full then pending[1..] + [x] else pending + [x]
    case LatestOnly => [x]
  }

  function Record(o: Options, m: Metrics, drops: nat, refused: bool, size: nat): Metrics {
    if !o.metrics then m
    else
      m.(received := m.received + 1, dropped := m.dropped + drops,
         highWatermark := if refused then m.highWatermark else Max(m.highWatermark, size))
  }

  predicate Refuses(o: Options, size: nat) {
    o.policy.DropNewest? && 0 < o.capacity <= size
  }

  /** One sample goes through the overflow policy. */
  function Admit<M>(o: Options, q: Queue<M>, x: M): Queue<M> {
    Queue(Push(o, q.pending, x),
          q.lost + Overflow(o, q.pending, x),
          Record(o, q.metrics, |Overflow(o, q.pending, x)|, Refuses(o, |q.pending|), |Push(o, q.pending, x)|))
  }

  /** A batch, sample by sample. */
  function AdmitAll<M>(o: Options, q: Queue<M>, batch: seq<M>): Queue<M>
    decreases |batch|
  {
    if batch == [] then q else Admit(o, AdmitAll(o, q, batch[..|batch| - 1]), batch[|batch| - 1])
  }

  predicate Bounded(o: Options) {
    0 < o.capacity || o.policy.LatestOnly?
  }

  function Bound(o: Options): nat
    requires Bounded(o)
  {
    if o.policy.LatestOnly? then 1 else o.capacity
  }

  // ---------------------------------------------------------------- what a batch leaves in the queue

  /** The closed form: the first `capacity` samples, the last `capacity` samples, or the last sample. */
  function Kept<M>(o: Options, all: seq<M>): seq<M> {
    if !Bounded(o) || |all| <= Bound(o) then all
    else if o.policy.DropNewest? then all[..Bound(o)]
    else all[|all| - Bound(o)..]
  }

  lemma {:induction false} AdmitAllKeeps<M>(o: Options, q: Queue<M>, batch: seq<M>)
    requires Bounded(o) ==> |q.pending| <= Bound(o)
    ensures AdmitAll(o, q, batch).pending == Kept(o, q.pending + batch)
    decreases |batch|
  {
    if batch == [] {
      assert q.pending + batch == q.pending;
    } else {
      var front, x := batch[..|batch| - 1], batch[|batch| - 1];
      AdmitAllKeeps(o, q, front);
      assert q.pending + batch == (q.pending + front) + [x];
      KeptPush(o, q.pending + front, x);
    }
  }

  lemma KeptPush<M>(o: Options, all: seq<M>, x: M)
    ensures Push(o, Kept(o, all), x) == Kept(o, all + [x])
  {
    if Bounded(o) && Bound(o) <= |all| && !o.policy.DropNewest? {
      var keep := Bound(o);
      assert (all + [x])[|all| + 1 - keep..] == all[|all| - keep..][1..] + [x];
    }
  }

  /** A batch in terms of the capacity: the queue fills up to it and no further, and holds the first samples of all or
      the last ones; the latest-only queue holds the last one. */
  lemma BatchOutcome<M>(o: Options, q: Queue<M>, batch: seq<M>)
    requires o.policy.LatestOnly? ==> |q.pending| <= 1
    requires !o.policy.LatestOnly? && o.capacity != 0 ==> |q.pending| <= o.capacity
    ensures var all, r := q.pending + batch, AdmitAll(o, q, batch);
      && (o.policy.LatestOnly? ==> r.pending == if all == [] then [] else [all[|all| - 1]])
      && (!o.policy.LatestOnly? ==>
            |r.pending| == if o.capacity == 0 || |all| <= o.capacity then |all| else o.capacity)
      && (o.policy.DropNewest? ==> r.pending <= all)
      && (o.policy.DropOldest? ==> |r.pending| <= |all| && r.pending == all[|all| - |r.pending|..])
      && |r.pending| + |r.lost| == |all| + |q.lost|
  {
    hide AdmitAll, Admit;
    AdmitAllKeeps(o, q, batch);
    AdmitAllConserves(o, q, batch);
    var r := AdmitAll(o, q, batch);
    assert |multiset(r.pending) + multiset(r.lost)|
      == |multiset(q.pending) + multiset(q.lost) + multiset(batch)|;
  }

  /** The length of the queue after the first `k` samples of a batch. */
  function LengthAfter<M>(o: Options, q: Queue<M>, batch: seq<M>, k: nat): nat
    requires k <= |batch|
  {
    |AdmitAll(o, q, batch[..k]).pending|
  }

  /** What a batch adds to the metrics: its length, its losses, and nothing executed. The new watermark is the larger of
      the old one and the greatest length that the queue had during the batch. Without metrics nothing is recorded. */
  lemma {:induction false} BatchMetrics<M>(o: Options, q: Queue<M>, batch: seq<M>)
    requires |q.pending| <= q.metrics.highWatermark
    ensures var m, r := q.metrics, AdmitAll(o, q, batch);
      if !o.metrics then r.metrics == m
      else
        && r.metrics.received == m.received + |batch| && r.metrics.executed == m.executed
        && r.metrics.dropped + |q.lost| == m.dropped + |r.lost|
        && m.highWatermark <= r.metrics.highWatermark
        && (forall k :: 0 <= k <= |batch| ==> LengthAfter(o, q, batch, k) <= r.metrics.highWatermark)
        && (r.metrics.highWatermark == m.highWatermark
            || exists k :: 0 <= k <= |batch| && LengthAfter(o, q, batch, k) == r.metrics.highWatermark)
    decreases |batch|
  {
    hide Push, Overflow;
    var r := AdmitAll(o, q, batch);
    assert batch[..|batch|] == batch;
    if batch == [] {
      assert forall k :: 0 <= k <= |batch| ==> batch[..k] == [];
    } else {
      var front := batch[..|batch| - 1];
      var f := AdmitAll(o, q, front);
      BatchMetrics(o, q, front);
      RefusedKeeps(o, f.pending, batch[|batch| - 1]);
      forall k | 0 <= k <= |front| ensures LengthAfter(o, q, batch, k) == LengthAfter(o, q, front, k) {
        assert batch[..k] == front[..k];
      }
      assert LengthAfter(o, q, batch, |batch|) == |r.pending|;
      assert front[..|front|] == front;
      assert LengthAfter(o, q, front, |front|) == |f.pending|;
    }
  }

  lemma RefusedKeeps<M>(o: Options, pending: seq<M>, x: M)
    ensures Refuses(o, |pending|) ==> Push(o, pending, x) == pending
  {
  }

  /** No sample is duplicated or forgotten: what came in is in the queue or among the lost. */
  lemma {:induction false} AdmitAllConserves<M>(o: Options, q: Queue<M>, batch: seq<M>)
    ensures var r := AdmitAll(o, q, batch);
      multiset(r.pending) + multiset(r.lost) == multiset(q.pending) + multiset(q.lost) + multiset(batch)
    decreases |batch|
  {
    hide Admit;
    if batch != [] {
      var front, x := batch[..|batch| - 1], batch[|batch| - 1];
      AdmitAllConserves(o, q, front);
      var f := AdmitAll(o, q, front);
      AdmitConserves(o, f, x);
      assert multiset(batch) == multiset(front) + multiset{x} by { assert batch == front + [x]; }
      assert multiset(f.pending) + multiset{x} + multiset(f.lost)
        == multiset(f.pending) + multiset(f.lost) + multiset{x};
    }
  }

  lemma AdmitConserves<M>(o: Options, q: Queue<M>, x: M)
    ensures var r := Admit(o, q, x);
      multiset(r.pending) + multiset(r.lost) == multiset(q.pending) + multiset{x} + multiset(q.lost)
  {
    hide Push, Overflow;
    PushConserves(o, q.pending, x);
    var over := Overflow(o, q.pending, x);
    assert multiset(q.lost + over) == multiset(q.lost) + multiset(over);
    assert multiset(Push(o, q.pending, x)) + (multiset(q.lost) + multiset(over))
        == (multiset(q.pending) + multiset{x}) + multiset(q.lost);
  }

  lemma PushConserves<M>(o: Options, pending: seq<M>, x: M)
    ensures multiset(Push(o, pending, x)) + multiset(Overflow(o, pending, x)) == multiset(pending) + multiset{x}
  {
    if o.policy.DropOldest? && 0 < o.capacity <= |pending| {
      assert pending == pending[..1] + pending[1..];
    }
  }

  // ---------------------------------------------------------------- a listener with its history

  /** Samples are numbered in order of arrival. `popped` and `delivered` list what the drain task took
      from the queue and what reached the callback. */
  datatype Listener = Listener(queue: Queue<nat>, scheduled: bool, stop: bool,
                               arrived: nat, popped: seq<nat>, delivered: seq<nat>)

  function NewListener(): Listener {
    Listener(Queue([], [], Metrics(0, 0, 0, 0)), false, false, 0, [], [])
  }

  function Range(lo: nat, hi: nat): (r: seq<nat>)
    requires lo <= hi
    ensures |r| == hi - lo && forall i :: 0 <= i < hi - lo ==> r[i] == lo + i
  {
    seq(hi - lo, i requires 0 <= i => lo + i)
  }

  function ArriveMany(o: Options, l: Listener, n: nat): Listener {
    l.(queue := AdmitAll(o, l.queue, Range(l.arrived, l.arrived + n)), arrived := l.arrived + n)
  }

  /** The locked block of `on_data_available`: `n` new samples go into the queue, and the caller learns whether
      it must hand out the drain task. */
  function Arrive(o: Options, l: Listener, n: nat): (Listener, bool) {
    if !o.handler || n == 0 || l.stop then (l, false)
    else
      var m := ArriveMany(o, l, n);
      if !m.scheduled && m.queue.pending != [] then (m.(scheduled := true), true) else (m, false)
  }

  datatype Popped = Cleared | Took(sample: nat)

  /** The locked block of the drain loop: takes the oldest sample, or clears the flag and ends. */
  function Pop(l: Listener): (Listener, Popped) {
    if l.stop || l.queue.pending == [] then (l.(scheduled := false), Cleared)
    else
      (l.(queue := l.queue.(pending := l.queue.pending[1..]), popped := l.popped + [l.queue.pending[0]]),
       Took(l.queue.pending[0]))
  }

  function Deliver(o: Options, l: Listener, sample: nat): Listener {
    if o.handler then l.(delivered := l.delivered + [sample]) else l
  }

  /** The metrics block after the callback. */
  function Count(l: Listener): Listener {
    var m := l.queue.metrics;
    l.(queue := l.queue.(metrics := m.(executed := m.executed + 1)))
  }

  function Destroy(l: Listener): Listener {
    l.(stop := true, scheduled := false, queue := l.queue.(pending := []))
  }

  /** Everything that was accepted and not pushed out, in the order in which it leaves the queue. */
  function Surviving(l: Listener): seq<nat> {
    l.popped + l.queue.pending
  }

  ghost predicate Ascending(s: seq<nat>) {
    forall i, j :: 0 <= i < j < |s| ==> s[i] < s[j]
  }

  ghost predicate Below(s: seq<nat>, n: nat) {
    forall i :: 0 <= i < |s| ==> s[i] < n
  }

  // ---------------------------------------------------------------- the listener invariant

  /** Every sample that arrived is popped, pending or lost, exactly once, and the survivors keep their order. */
  ghost predicate Accounted(l: Listener) {
    && Ascending(Surviving(l)) && Below(Surviving(l), l.arrived)
    && multiset(Surviving(l)) + multiset(l.queue.lost) == multiset(Range(0, l.arrived))
  }

  /** Under drop-oldest and latest-only the queue is the run of the newest samples. */
  ghost predicate Newest(o: Options, l: Listener) {
    !o.policy.DropNewest? ==>
      && |l.queue.pending| <= l.arrived
      && l.queue.pending == Range(l.arrived - |l.queue.pending|, l.arrived)
      && (0 < l.arrived ==> Surviving(l) != [] && Surviving(l)[|Surviving(l)| - 1] == l.arrived - 1)
  }

  predicate WithinBound(o: Options, l: Listener) {
    if Bounded(o) then |l.queue.pending| <= Bound(o) else l.queue.lost == []
  }

  predicate Measured(o: Options, l: Listener) {
    var m := l.queue.metrics;
    if o.metrics then
      && m.received == l.arrived && m.dropped == |l.queue.lost|
      && |l.queue.pending| <= m.highWatermark && (Bounded(o) ==> m.highWatermark <= Bound(o))
    else m == Metrics(0, 0, 0, 0)
  }

  ghost predicate Sound(o: Options, l: Listener) {
    && !l.stop && Accounted(l) && Newest(o, l) && WithinBound(o, l) && Measured(o, l)
    && (l.queue.pending != [] ==> l.scheduled)
    && (!o.handler ==> l.arrived == 0 && l.popped == [] && l.queue.pending == [])
  }

  lemma NewListenerSound(o: Options)
    ensures Sound(o, NewListener())
  {
    assert Range(0, 0) == [];
  }

  /** One arrival, before the flag is looked at. */
  function ArriveOne(o: Options, l: Listener): Listener {
    l.(queue := Admit(o, l.queue, l.arrived), arrived := l.arrived + 1)
  }

  ghost predicate Settled(o: Options, l: Listener) {
    Accounted(l) && Newest(o, l) && WithinBound(o, l) && Measured(o, l)
  }

  lemma AscendingPush(s: seq<nat>, t: seq<nat>, n: nat)
    requires Ascending(s) && Below(s, n) && t == s + [n]
    ensures Ascending(t) && Below(t, n + 1)
  {
  }

  lemma AscendingDrop(a: seq<nat>, b: seq<nat>, n: nat)
    requires Ascending(a + b) && Below(a + b, n) && b != []
    ensures Ascending(a + b[1..]) && Below(a + b[1..], n)
  {
    var s, t := a + b, a + b[1..];
    forall i, j | 0 <= i < j < |t| ensures t[i] < t[j] {
      assert t[i] == s[if i < |a| then i else i + 1];
      assert t[j] == s[if j < |a| then j else j + 1];
    }
    forall i | 0 <= i < |t| ensures t[i] < n {
      assert t[i] == s[if i < |a| then i else i + 1];
    }
  }

  lemma AscendingPrefix(a: seq<nat>, b: seq<nat>, n: nat)
    requires Ascending(a + b) && Below(a + b, n)
    ensures Ascending(a) && Below(a, n)
  {
    forall i, j | 0 <= i < j < |a| ensures a[i] < a[j] { assert (a + b)[i] < (a + b)[j]; }
    forall i | 0 <= i < |a| ensures a[i] < n { assert (a + b)[i] < n; }
  }

  lemma SurvivorsAfterPush(o: Options, popped: seq<nat>, pending: seq<nat>, n: nat)
    requires Ascending(popped + pending) && Below(popped + pending, n)
    ensures var s := popped + Push(o, pending, n);
      Ascending(s) && Below(s, n + 1)
  {
    var full := 0 < o.capacity <= |pending|;
    if o.policy.LatestOnly? {
      AscendingPrefix(popped, pending, n);
      AscendingPush(popped, popped + [n], n);
    } else if !full {
      AscendingPush(popped + pending, popped + (pending + [n]), n);
    } else if o.policy.DropOldest? {
      AscendingDrop(popped, pending, n);
      AscendingPush(popped + pending[1..], popped + (pending[1..] + [n]), n);
    } else {
      assert Below(popped + pending, n + 1);
    }
  }

  lemma AccountedAfterOne(o: Options, l: Listener)
    requires Accounted(l)
    ensures Accounted(ArriveOne(o, l))
  {
    hide Push, Overflow, Ascending, Below, Record;
    SurvivorsAfterPush(o, l.popped, l.queue.pending, l.arrived);
    PushConserves(o, l.queue.pending, l.arrived);
    assert Range(0, l.arrived + 1) == Range(0, l.arrived) + [l.arrived];
    var pending, over := Push(o, l.queue.pending, l.arrived), Overflow(o, l.queue.pending, l.arrived);
    assert multiset(l.popped + pending) + multiset(l.queue.lost + over)
        == multiset(l.popped) + multiset(l.queue.lost) + (multiset(pending) + multiset(over));
    assert multiset(l.popped + l.queue.pending) == multiset(l.popped) + multiset(l.queue.pending);
  }

  lemma SettledAfterOne(o: Options, l: Listener)
    requires Settled(o, l)
    ensures Settled(o, ArriveOne(o, l))
  {
    hide Accounted;
    AccountedAfterOne(o, l);
  }

  /** `n` arrivals one after another. */
  function ArriveEach(o: Options, l: Listener, n: nat): Listener {
    if n == 0 then l else ArriveOne(o, ArriveEach(o, l, n - 1))
  }

  lemma {:induction false} ArriveEachSettled(o: Options, l: Listener, n: nat)
    requires Settled(o, l)
    ensures Settled(o, ArriveEach(o, l, n))
  {
    hide Settled, ArriveOne;
    if n > 0 {
      ArriveEachSettled(o, l, n - 1);
      SettledAfterOne(o, ArriveEach(o, l, n - 1));
    }
  }

  lemma {:induction false} ArriveEachIsBatch(o: Options, l: Listener, n: nat)
    ensures ArriveEach(o, l, n) == ArriveMany(o, l, n)
  {
    hide Admit;
    var r := Range(l.arrived, l.arrived + n);
    if n == 0 {
      assert r == [];
    } else {
      ArriveEachIsBatch(o, l, n - 1);
      assert r[..n - 1] == Range(l.arrived, l.arrived + (n - 1));
      assert r[n - 1] == l.arrived + (n - 1);
    }
  }

  lemma {:induction false} AdmitAllExecuted<M>(o: Options, q: Queue<M>, batch: seq<M>)
    ensures AdmitAll(o, q, batch).metrics.executed == q.metrics.executed
    decreases |batch|
  {
    if batch != [] { AdmitAllExecuted(o, q, batch[..|batch| - 1]); }
  }

  /** What a batch does to the rest of the listener: nothing. */
  lemma ArriveManySettled(o: Options, l: Listener, n: nat)
    requires Settled(o, l) && 0 < n
    ensures var m := ArriveMany(o, l, n);
      && Settled(o, m) && m.queue.pending != [] && m.queue.metrics.executed == l.queue.metrics.executed
      && m == l.(queue := m.queue, arrived := l.arrived + n)
  {
    hide Settled, Admit, AdmitAll, Range;
    ArriveEachSettled(o, l, n);
    ArriveEachIsBatch(o, l, n);
    AdmitAllExecuted(o, l.queue, Range(l.arrived, l.arrived + n));
    SomePending(o, ArriveEach(o, l, n - 1));
  }

  lemma SomePending(o: Options, l: Listener)
    ensures ArriveOne(o, l).queue.pending != []
  {
  }

  /** Arrival keeps the invariant, leaves the queue non-empty and the flag set, and asks for a task
      exactly when it was the one to set the flag. */
  lemma ArriveSound(o: Options, l: Listener, n: nat)
    requires Sound(o, l)
    ensures Sound(o, Arrive(o, l, n).0)
    ensures Arrive(o, l, n).1 <==> o.handler && 0 < n && !l.scheduled
    ensures Arrive(o, l, n).0.scheduled <==> l.scheduled || Arrive(o, l, n).1
    ensures var m := Arrive(o, l, n).0;
      m.popped == l.popped && m.delivered == l.delivered && m.queue.metrics.executed == l.queue.metrics.executed
  {
    hide Accounted, Newest, WithinBound, Measured, ArriveMany;
    if o.handler && 0 < n {
      ArriveManySettled(o, l, n);
      FlagIrrelevant(o, ArriveMany(o, l, n));
    }
  }

  lemma FlagIrrelevant(o: Options, l: Listener)
    requires Settled(o, l)
    ensures Settled(o, l.(scheduled := true))
  {
    hide Ascending, Below;
  }

  lemma PopSound(o: Options, l: Listener)
    requires Sound(o, l)
    ensures Sound(o, Pop(l).0)
    ensures Pop(l).1.Cleared? <==> l.queue.pending == []
    ensures Pop(l).1.Took? ==> Pop(l).0 == l.(queue := Pop(l).0.queue, popped := l.popped + [Pop(l).1.sample])
    ensures Surviving(Pop(l).0) == Surviving(l) && Pop(l).0.queue.metrics == l.queue.metrics
  {
    hide Newest, Accounted, Measured, WithinBound;
    SurvivorsAfterPop(o, l);
    NewestAfterPop(o, l);
    MeasuredAfterPop(o, l);
  }

  lemma SurvivorsAfterPop(o: Options, l: Listener)
    requires Accounted(l)
    ensures Surviving(Pop(l).0) == Surviving(l) && Accounted(Pop(l).0)
  {
    hide Ascending, Below, Range;
  }

  lemma MeasuredAfterPop(o: Options, l: Listener)
    requires Measured(o, l) && WithinBound(o, l)
    ensures Measured(o, Pop(l).0) && WithinBound(o, Pop(l).0)
  {
  }

  lemma NewestAfterPop(o: Options, l: Listener)
    requires Newest(o, l)
    ensures Newest(o, Pop(l).0)
  {
    var m := Pop(l).0;
    assert Surviving(m) == Surviving(l);
  }

  lemma DeliverSound(o: Options, l: Listener, sample: nat)
    requires Sound(o, l)
    ensures Sound(o, Deliver(o, l, sample))
  {
    hide Ascending, Below;
  }

  lemma CountSound(o: Options, l: Listener)
    requires Sound(o, l) && o.metrics
    ensures Sound(o, Count(l))
  {
    hide Ascending, Below;
  }

  /** An arrival raises the watermark exactly to the length that the queue has then. */
  lemma ArriveWatermark(o: Options, l: Listener, n: nat)
    requires Sound(o, l) && o.metrics
    ensures var m := Arrive(o, l, n).0;
      m.queue.metrics.highWatermark == Max(l.queue.metrics.highWatermark, |m.queue.pending|)
  {
    hide AdmitAll, Admit, Range, Ascending, Below, Push, Newest;
    if o.handler && 0 < n {
      var batch := Range(l.arrived, l.arrived + n);
      BatchMetrics(o, l.queue, batch);
      assert |batch| == n;
      assert Arrive(o, l, n).0.queue == AdmitAll(o, l.queue, batch);
      forall k | 0 <= k <= n ensures LengthAfter(o, l.queue, batch, k) <= LengthAfter(o, l.queue, batch, n) {
        BatchGrows(o, l.queue, batch, k);
      }
      assert batch[..n] == batch;
      assert LengthAfter(o, l.queue, batch, n) == |AdmitAll(o, l.queue, batch).pending|;
    }
  }

  /** Within a batch the queue never gets shorter. */
  lemma BatchGrows<M>(o: Options, q: Queue<M>, batch: seq<M>, k: nat)
    requires Bounded(o) ==> |q.pending| <= Bound(o)
    requires k <= |batch|
    ensures LengthAfter(o, q, batch, k) <= LengthAfter(o, q, batch, |batch|)
  {
    hide AdmitAll;
    AdmitAllKeeps(o, q, batch[..k]);
    AdmitAllKeeps(o, q, batch);
    assert batch[..|batch|] == batch;
  }

  // ---------------------------------------------------------------- consequences

  /** Nothing is lost when the queue is unbounded: the survivors are all that arrived. */
  lemma UnboundedLosesNothing(o: Options, l: Listener)
    requires Sound(o, l) && !Bounded(o)
    ensures Surviving(l) == Range(0, l.arrived)
  {
    SortedIsRange(Surviving(l), l.arrived);
  }

  lemma {:induction false} AscendingAtLeast(s: seq<nat>, i: nat)
    requires Ascending(s) && i < |s|
    ensures i <= s[i] && forall k :: i <= k < |s| ==> s[i] + (k - i) <= s[k]
    decreases |s| - i
  {
    if i + 1 < |s| {
      AscendingAtLeast(s, i + 1);
      assert s[i] < s[i + 1];
    }
    AscendingFromZero(s, i);
  }

  lemma {:induction false} AscendingFromZero(s: seq<nat>, i: nat)
    requires Ascending(s) && i < |s|
    ensures i <= s[i]
  {
    if i > 0 {
      AscendingFromZero(s, i - 1);
      assert s[i - 1] < s[i];
    }
  }

  lemma SortedIsRange(s: seq<nat>, n: nat)
    requires Ascending(s) && Below(s, n) && multiset(s) == multiset(Range(0, n))
    ensures s == Range(0, n)
  {
    assert |s| == |multiset(s)| == |multiset(Range(0, n))| == n;
    forall i | 0 <= i < n ensures s[i] == i {
      AscendingAtLeast(s, i);
      assert s[i] + (n - 1 - i) <= s[n - 1] < n;
    }
  }

  /** Under drop-newest what was accepted stays: it is neither reordered nor taken back. */
  lemma {:induction false} DropNewestKeeps<M>(o: Options, q: Queue<M>, batch: seq<M>)
    requires o.policy.DropNewest?
    ensures q.pending <= AdmitAll(o, q, batch).pending
    decreases |batch|
  {
    if batch != [] { DropNewestKeeps(o, q, batch[..|batch| - 1]); }
  }

  /** received = dropped + taken + waiting, whatever the policy. */
  lemma Conservation(o: Options, l: Listener)
    requires Sound(o, l) && o.metrics
    ensures l.queue.metrics.received == l.queue.metrics.dropped + |l.popped| + |l.queue.pending|
  {
    hide Ascending, Below;
    assert |multiset(Surviving(l)) + multiset(l.queue.lost)| == |multiset(Range(0, l.arrived))|;
  }
}
