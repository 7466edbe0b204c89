/** The life of DDS readers, writers and listeners that a topic channel owns.

    A half of the channel is its reader or its writer. The DDS side is a log of the entities created and of the
    deletions asked for; whether a creation succeeds is up to DDS. */
module TopicChannel {
  import opened Basics
  import opened Counting

  datatype Kind = Reader | Writer

  /** Who created the entity, and the listener that it calls, for a reader. */
  datatype Entity = Entity(owner: nat, listener: Option<nat>)

  datatype Deletion = Deletion(owner: nat, id: nat)

  /** `held`, `owner` and `listener` are the channel's fields, `scratch` the shared pointer to the new listener inside
      `SetReader`, and `made` numbers the listeners. */
  datatype Half = Half(kind: Kind, created: seq<Entity>, deletions: seq<Deletion>, held: Option<nat>,
      owner: Option<nat>,
                       listener: Option<nat>, scratch: Option<nat>, made: nat)

  function NewHalf(kind: Kind): Half {
    Half(kind, [], [], None, None, None, None, 0)
  }

  // ---------------------------------------------------------------- single steps

  function DeleteEntity(h: Half): Half {
    if h.owner.Some? && h.held.Some? then h.(deletions := h.deletions + [Deletion(h.owner.value, h.held.value)]) else h
  }

  function ResetHeld(h: Half): Half { h.(held := None) }
  function ResetOwner(h: Half): Half { h.(owner := None) }
  function ResetListener(h: Half): Half { if h.kind.Reader? then h.(listener := None) else h }
  function DropScratch(h: Half): Half { h.(scratch := None) }

  function MakeListener(h: Half): Half {
    if h.kind.Reader? then h.(scratch := Some(h.made), made := h.made + 1) else h
  }

  function CreateEntity(h: Half, owner: nat): Half {
    h.(created := h.created + [Entity(owner, h.scratch)])
  }

  function KeepListener(h: Half): Half { if h.kind.Reader? then h.(listener := h.scratch) else h }
  function KeepOwner(h: Half, owner: nat): Half { h.(owner := Some(owner)) }
  function KeepEntity(h: Half, id: nat): Half { h.(held := Some(id)) }

  /** The states that CloseReader or CloseWriter goes through. */
  function CloseTrace(h: Half): (r: seq<Half>)
    ensures |r| == 4
  {
    var a := DeleteEntity(h);
    var b := ResetHeld(a);
    var c := ResetOwner(b);
    [a, b, c, ResetListener(c)]
  }

  function Close(h: Half): Half {
    CloseTrace(h)[3]
  }

  /** What SetReader or SetWriter is given: a subscriber or publisher or none, and what DDS will answer. */
  datatype Request = Request(owner: Option<nat>, topic: bool, granted: bool)

  predicate Succeeds(q: Request) {
    q.owner.Some? && q.topic && q.granted
  }

  function InstallTrace(h: Half, owner: nat, id: nat): (r: seq<Half>)
    ensures |r| == 4
  {
    var a := KeepListener(h);
    var b := KeepOwner(a, owner);
    var c := KeepEntity(b, id);
    [a, b, c, DropScratch(c)]
  }

  function SetTrace(h: Half, q: Request): (r: seq<Half>)
    ensures |r| == 0 || |r| == 2 || |r| == 10
  {
    if q.owner.None? || !q.topic then []
    else
      var a := MakeListener(h);
      if !q.granted then [a, DropScratch(a)]
      else
        var b := CreateEntity(a, q.owner.value);
        [a, b] + CloseTrace(b) + InstallTrace(Close(b), q.owner.value, |h.created|)
  }

  function Set(h: Half, q: Request): Half {
    var t := SetTrace(h, q);
    if t == [] then h else t[|t| - 1]
  }

  // ---------------------------------------------------------------- what holds

  function DeletionOf(id: nat): Deletion -> nat { (d: Deletion) => Bit(d.id == id) }

  predicate ByOwner(h: Half, d: Deletion) {
    d.id < |h.created| && h.created[d.id].owner == d.owner
  }

  /** A deletion is asked of whoever created the entity, once for everything but what is held. */
  ghost predicate DeletedOnce(h: Half) {
    && (forall k :: 0 <= k < |h.deletions| ==> ByOwner(h, h.deletions[k]))
    && (forall id :: 0 <= id < |h.created| ==> Tally(DeletionOf(id), h.deletions) == Bit(h.held != Some(id)))
  }

  /** The listener of every entity that has not been deleted is kept alive by the channel or by SetReader itself. */
  ghost predicate Owned(h: Half) {
    forall id :: 0 <= id < |h.created| && h.created[id].listener.Some? && Tally(DeletionOf(id), h.deletions) == 0 ==>
      h.listener == h.created[id].listener || h.scratch == h.created[id].listener
  }

  ghost predicate AllOwned(t: seq<Half>) {
    forall i :: 0 <= i < |t| ==> Owned(t[i])
  }

  /** Between two calls. */
  ghost predicate Idle(h: Half) {
    && DeletedOnce(h) && h.scratch == None
    && (h.held.Some? ==>
          && h.held.value < |h.created|
          && h.owner == Some(h.created[h.held.value].owner)
          && h.listener == h.created[h.held.value].listener)
    && (h.held.None? ==> h.owner == None && h.listener == None)
    && Heard(h)
  }

  /** Every reader was created with a listener that no earlier reader had; writers have none. */
  ghost predicate Heard(h: Half) {
    && (forall id :: 0 <= id < |h.created| ==> (h.created[id].listener.Some? <==> h.kind.Reader?))
    && (forall id :: 0 <= id < |h.created| && h.created[id].listener.Some? ==> h.created[id].listener.value < h.made)
    && (forall i, j :: 0 <= i < j < |h.created| && h.kind.Reader? ==> h.created[i].listener != h.created[j].listener)
  }

  lemma IdleOwned(h: Half)
    requires Idle(h)
    ensures Owned(h)
  {
  }

  lemma DeletionCounts(h: Half)
    requires Idle(h) && h.held.Some?
    ensures forall id :: 0 <= id < |h.created| ==> Tally(DeletionOf(id), DeleteEntity(h).deletions) == 1
  {
    forall id | 0 <= id < |h.created| ensures Tally(DeletionOf(id), DeleteEntity(h).deletions) == 1 {
      TallyAppend(DeletionOf(id), h.deletions, Deletion(h.owner.value, h.held.value));
    }
  }

  lemma CloseKeepsIdle(h: Half)
    requires Idle(h)
    ensures Idle(Close(h)) && Close(h).held == None && Close(h).owner == None && Close(h).listener == None
    ensures Close(h).created == h.created && AllOwned(CloseTrace(h))
  {
    if h.held.Some? { DeletionCounts(h); }
  }

  // ---------------------------------------------------------------- replacing the held entity

  /** Everything but the entity created last has been deleted. */
  ghost predicate OnlyLast(h: Half) {
    && 0 < |h.created|
    && (forall k :: 0 <= k < |h.deletions| ==> ByOwner(h, h.deletions[k]))
    && (forall id :: 0 <= id < |h.created| ==> Tally(DeletionOf(id), h.deletions) == Bit(id != |h.created| - 1))
  }

  function Last(h: Half): Entity
    requires 0 < |h.created|
  {
    h.created[|h.created| - 1]
  }

  lemma NewUndeleted(h: Half)
    requires DeletedOnce(h)
    ensures Tally(DeletionOf(|h.created|), h.deletions) == 0
  {
    forall k | 0 <= k < |h.deletions| ensures DeletionOf(|h.created|)(h.deletions[k]) == 0 {
      assert ByOwner(h, h.deletions[k]);
    }
    TallyNone(DeletionOf(|h.created|), h.deletions);
  }

  lemma CreatedOwned(h: Half, owner: nat)
    requires Idle(h)
    ensures Owned(MakeListener(h)) && Owned(CreateEntity(MakeListener(h), owner))
  {
    NewUndeleted(h);
  }

  /** The old entity is deleted before its listener is let go. */
  lemma OldDeleted(h: Half, owner: nat)
    requires Idle(h)
    ensures OnlyLast(DeleteEntity(CreateEntity(MakeListener(h), owner)))
  {
    var b := CreateEntity(MakeListener(h), owner);
    NewUndeleted(h);
    forall k | 0 <= k < |h.deletions| ensures ByOwner(b, h.deletions[k]) {
      assert ByOwner(h, h.deletions[k]);
    }
    forall id | 0 <= id < |b.created|
      ensures Tally(DeletionOf(id), DeleteEntity(b).deletions) == Bit(id != |h.created|)
    {
      if h.held.Some? { TallyAppend(DeletionOf(id), h.deletions, Deletion(h.owner.value, h.held.value)); }
    }
  }

  lemma TraceOwned(h: Half, q: Request)
    requires Idle(h)
    ensures AllOwned(SetTrace(h, q))
  {
    hide Owned, OnlyLast;
    if q.owner.Some? && q.topic {
      var a := MakeListener(h);
      CreatedOwned(h, q.owner.value);
      IdleOwned(h);
      if q.granted {
        var b := CreateEntity(a, q.owner.value);
        OldDeleted(h, q.owner.value);
        CloseOwned(DeleteEntity(b), h.kind);
        InstallOwned(Close(b), q.owner.value);
      } else {
        ScratchIdle(h);
      }
    }
  }

  lemma ScratchIdle(h: Half)
    requires Idle(h)
    ensures Owned(DropScratch(MakeListener(h)))
  {
  }

  lemma CloseOwned(d: Half, kind: Kind)
    requires OnlyLast(d) && Last(d).listener == d.scratch && d.kind == kind
    ensures Owned(d) && Owned(ResetHeld(d)) && Owned(ResetOwner(ResetHeld(d)))
      && Owned(ResetListener(ResetOwner(ResetHeld(d))))
    ensures OnlyLast(ResetListener(ResetOwner(ResetHeld(d))))
  {
  }

  lemma InstallOwned(c: Half, owner: nat)
    requires OnlyLast(c) && Last(c).listener == c.scratch && (c.kind.Writer? ==> c.scratch == None)
    ensures AllOwned(InstallTrace(c, owner, |c.created| - 1))
  {
  }

  /** The new entity stands behind the earlier ones and is what the channel holds: it was created by the owner asked
      for, and a reader with a listener that none of the earlier ones had. */
  ghost predicate Installed(h: Half, owner: nat, g: Half) {
    && |g.created| == |h.created| + 1 && g.created[..|h.created|] == h.created
    && g.held == Some(|h.created|) && g.owner == Some(owner) && Last(g).owner == owner
    && g.listener == Last(g).listener && (g.listener.Some? <==> h.kind.Reader?)
    && (h.kind.Reader? ==> forall id :: 0 <= id < |h.created| ==> h.created[id].listener != g.listener)
  }

  lemma SetKeepsIdle(h: Half, q: Request)
    requires Idle(h)
    ensures Idle(Set(h, q)) && Set(h, q).kind == h.kind
    ensures Succeeds(q) ==> Installed(h, q.owner.value, Set(h, q))
    ensures !Succeeds(q) ==> Set(h, q) == h.(made := Set(h, q).made)
  {
    hide Heard, Installed, DeletedOnce, InstallTrace, CloseTrace;
    if Succeeds(q) {
      hide Idle, Installed;
      SuccessIdle(h, q.owner.value);
    } else {
      MadeIrrelevant(h);
    }
  }

  lemma MadeIrrelevant(h: Half)
    requires Idle(h)
    ensures Idle(h.(made := h.made + 1)) && h.scratch == None
  {
  }

  lemma SuccessIdle(h: Half, owner: nat)
    requires Idle(h)
    ensures var g := InstallTrace(Close(CreateEntity(MakeListener(h), owner)), owner, |h.created|)[3];
      Idle(g) && Installed(h, owner, g) && g.kind == h.kind
  {
    hide Owned, OnlyLast, DeletedOnce, InstallTrace;
    var b := CreateEntity(MakeListener(h), owner);
    NewHeard(h, owner);
    OldDeleted(h, owner);
    CloseOwned(DeleteEntity(b), h.kind);
    InstallIdle(Close(b), owner);
    InstallKeeps(Close(b), owner);
  }

  lemma NewHeard(h: Half, owner: nat)
    requires Idle(h)
    ensures Heard(CreateEntity(MakeListener(h), owner))
  {
  }

  lemma InstallKeeps(c: Half, owner: nat)
    requires 0 < |c.created|
    ensures var g := InstallTrace(c, owner, |c.created| - 1)[3];
      && g.kind == c.kind && g.created == c.created && g.held == Some(|c.created| - 1) && g.owner == Some(owner)
      && g.listener == if c.kind.Reader? then c.scratch else c.listener
  {
  }

  lemma InstallIdle(c: Half, owner: nat)
    requires OnlyLast(c) && Last(c) == Entity(owner, c.scratch)
    requires Heard(c) && (c.kind.Writer? ==> c.listener == None)
    ensures Idle(InstallTrace(c, owner, |c.created| - 1)[3])
  {
  }

  /** Something is held that has not been deleted. */
  ghost predicate InService(h: Half) {
    exists id :: 0 <= id < |h.created| && Tally(DeletionOf(id), h.deletions) == 0
  }

  /** While a reader or writer is replaced there is never none: the new one exists before the old one is deleted. */
  lemma ReplacedWithoutGap(h: Half, q: Request)
    requires Idle(h) && h.held.Some?
    ensures forall i :: 0 <= i < |SetTrace(h, q)| ==> InService(SetTrace(h, q)[i])
  {
    hide Heard, ByOwner;
    assert Tally(DeletionOf(h.held.value), h.deletions) == 0;
    if Succeeds(q) {
      var n := |h.created|;
      var b := CreateEntity(MakeListener(h), q.owner.value);
      NewUndeleted(h);
      OldDeleted(h, q.owner.value);
      forall i | 0 <= i < 10 ensures InService(SetTrace(h, q)[i]) {
        var t := SetTrace(h, q)[i];
        var id := if i == 0 then h.held.value else n;
        assert Tally(DeletionOf(id), t.deletions) == 0;
      }
    }
  }

  // ---------------------------------------------------------------- whole runs

  datatype Operation = SetTo(request: Request) | CloseIt

  function Apply(h: Half, op: Operation): Half {
    match op
    case SetTo(q) => Set(h, q)
    case CloseIt => Close(h)
  }

  function Trace(h: Half, op: Operation): seq<Half> {
    match op
    case SetTo(q) => SetTrace(h, q)
    case CloseIt => CloseTrace(h)
  }

  function Run(h: Half, ops: seq<Operation>): Half
    decreases |ops|
  {
    if ops == [] then h else Apply(Run(h, ops[..|ops| - 1]), ops[|ops| - 1])
  }

  lemma {:induction false} RunIdle(kind: Kind, ops: seq<Operation>)
    ensures Idle(Run(NewHalf(kind), ops))
    decreases |ops|
  {
    hide Idle, Set, Close;
    if ops == [] {
      NewIdle(kind);
    } else {
      RunIdle(kind, ops[..|ops| - 1]);
      var h := Run(NewHalf(kind), ops[..|ops| - 1]);
      match ops[|ops| - 1] {
        case SetTo(q) => SetKeepsIdle(h, q);
        case CloseIt => CloseKeepsIdle(h);
      }
    }
  }

  lemma NewIdle(kind: Kind)
    ensures Idle(NewHalf(kind))
  {
  }

  /** Whatever was created is deleted exactly once, and by its creator, when the channel is gone. */
  lemma DeletedExactlyOnce(kind: Kind, ops: seq<Operation>)
    ensures var h := Close(Run(NewHalf(kind), ops));
      && (forall id :: 0 <= id < |h.created| ==> Tally(DeletionOf(id), h.deletions) == 1)
      && (forall k :: 0 <= k < |h.deletions| ==> ByOwner(h, h.deletions[k]))
  {
    hide Run, Close;
    RunIdle(kind, ops);
    CloseKeepsIdle(Run(NewHalf(kind), ops));
  }

  /** Whatever was set and closed before, each reader ever created has a listener, and no two have the same. */
  lemma EveryReaderHeard(ops: seq<Operation>)
    ensures var h := Run(NewHalf(Reader), ops);
      && (forall id :: 0 <= id < |h.created| ==> h.created[id].listener.Some?)
      && (forall i, j :: 0 <= i < j < |h.created| ==> h.created[i].listener != h.created[j].listener)
      && (h.held.Some? ==> h.held.value < |h.created| && h.listener == h.created[h.held.value].listener)
  {
    hide Run;
    RunIdle(Reader, ops);
    RunKind(Reader, ops);
  }

  lemma {:induction false} RunKind(kind: Kind, ops: seq<Operation>)
    ensures Run(NewHalf(kind), ops).kind == kind
    decreases |ops|
  {
    if ops != [] { RunKind(kind, ops[..|ops| - 1]); }
  }

  /** At every step inside every call, the listener of a reader that DDS may still call is alive. */
  lemma ListenerOutlivesReader(kind: Kind, ops: seq<Operation>, op: Operation)
    ensures AllOwned(Trace(Run(NewHalf(kind), ops), op))
  {
    hide Run, CloseTrace, SetTrace, Owned;
    RunIdle(kind, ops);
    var h := Run(NewHalf(kind), ops);
    match op {
      case SetTo(q) => TraceOwned(h, q);
      case CloseIt => CloseKeepsIdle(h);
    }
  }

  /** A set that fails leaves the old entity in place and undeleted. */
  lemma FailedSetKeepsOld(kind: Kind, ops: seq<Operation>, q: Request)
    requires !Succeeds(q)
    ensures var h := Run(NewHalf(kind), ops);
      var g := Set(h, q);
      && g.held == h.held && g.owner == h.owner && g.listener == h.listener && g.created == h.created
        && g.deletions == h.deletions
      && (g.held.Some? ==> g.held.value < |g.created| && Tally(DeletionOf(g.held.value), g.deletions) == 0)
  {
    hide Run, Set;
    RunIdle(kind, ops);
    SetKeepsIdle(Run(NewHalf(kind), ops), q);
  }

  // ---------------------------------------------------------------- the object

  class DdsTopicChannel {
    var topic: bool
    var writer: Option<nat>
    var writerOwner: Option<nat>
    var reader: Option<nat>
    var readerOwner: Option<nat>
    var listener: Option<nat>
    ghost var readers: Half
    ghost var writers: Half

    /** The fields are those of the two halves. */
    ghost predicate Tied()
      reads this
    {
      && readers.kind == Reader && readers.held == reader && readers.owner == readerOwner
      && readers.listener == listener
      && writers.kind == Writer && writers.held == writer && writers.owner == writerOwner
    }

    ghost predicate Valid()
      reads this
    {
      Tied() && Idle(readers) && Idle(writers)
    }

    constructor ()
      ensures Valid() && !topic && readers == NewHalf(Reader) && writers == NewHalf(Writer)
    {
      topic, writer, writerOwner, reader, readerOwner, listener := false, None, None, None, None, None;
      readers, writers := NewHalf(Reader), NewHalf(Writer);
      NewIdle(Reader);
      NewIdle(Writer);
    }

    method SetTopic(initialized: bool)
      modifies this`topic
      ensures topic == initialized
    {
      topic := initialized;
    }

    method CloseReader()
      requires Tied()
      modifies this`reader, this`readerOwner, this`listener, this`readers
      ensures Tied() && readers == Close(old(readers)) && (old(Valid()) ==> Valid())
    {
      hide Idle, Installed;
      if Idle(readers) { CloseKeepsIdle(readers); }
      if readerOwner.Some? && reader.Some? {
        readers := readers.(deletions := readers.deletions + [Deletion(readerOwner.value, reader.value)]);
      }
      reader := None;
      readers := ResetHeld(readers);
      readerOwner := None;
      readers := ResetOwner(readers);
      listener := None;
      readers := ResetListener(readers);
    }

    method CloseWriter()
      requires Tied()
      modifies this`writer, this`writerOwner, this`writers
      ensures Tied() && writers == Close(old(writers)) && (old(Valid()) ==> Valid())
    {
      hide Idle, Installed;
      if Idle(writers) { CloseKeepsIdle(writers); }
      if writerOwner.Some? && writer.Some? {
        writers := writers.(deletions := writers.deletions + [Deletion(writerOwner.value, writer.value)]);
      }
      writer := None;
      writers := ResetHeld(writers);
      writerOwner := None;
      writers := ResetOwner(writers);
    }

    /** `made` is the new listener, and `raw` what create_datareader returns: the next reader, or null. */
    method SetReader(subscriber: Option<nat>, made: nat, raw: Option<nat>)
      requires Valid() && made == readers.made && (raw.Some? ==> raw.value == |readers.created|)
      modifies this
      ensures Valid() && readers == Set(old(readers), Request(subscriber, topic, raw.Some?))
      ensures writers == old(writers) && topic == old(topic)
      ensures if subscriber.Some? && topic && raw.Some?
        then reader == raw && readerOwner == subscriber && listener == Some(made)
        else reader == old(reader) && readerOwner == old(readerOwner) && listener == old(listener)
    {
      hide Idle, Installed;
      SetKeepsIdle(readers, Request(subscriber, topic, raw.Some?));
      if subscriber.None? || !topic { return; }
      var scratch := Some(made);
      readers := readers.(scratch := scratch, made := made + 1);
      if raw.None? {
        readers := DropScratch(readers);
        return;
      }
      readers := CreateEntity(readers, subscriber.value);
      CloseReader();
      listener := scratch;
      readers := KeepListener(readers);
      readerOwner := subscriber;
      readers := KeepOwner(readers, subscriber.value);
      reader := raw;
      readers := DropScratch(KeepEntity(readers, raw.value));
    }

    method SetWriter(publisher: Option<nat>, raw: Option<nat>)
      requires Valid() && (raw.Some? ==> raw.value == |writers.created|)
      modifies this
      ensures Valid() && writers == Set(old(writers), Request(publisher, topic, raw.Some?))
      ensures readers == old(readers) && topic == old(topic)
      ensures if publisher.Some? && topic && raw.Some? then writer == raw && writerOwner == publisher
        else writer == old(writer) && writerOwner == old(writerOwner)
    {
      hide Idle, Installed;
      SetKeepsIdle(writers, Request(publisher, topic, raw.Some?));
      NoScratch(writers);
      if publisher.None? || !topic { return; }
      if raw.None? { return; }
      writers := CreateEntity(writers, publisher.value);
      CloseWriter();
      writerOwner := publisher;
      writers := KeepOwner(writers, publisher.value);
      writer := raw;
      writers := KeepEntity(writers, raw.value);
    }

    lemma NoScratch(h: Half)
      requires Idle(h)
      ensures DropScratch(h) == h
    {
    }

    method Destructor()
      requires Valid()
      modifies this
      ensures Valid() && readers == Close(old(readers)) && writers == Close(old(writers))
    {
      CloseReader();
      CloseWriter();
    }
  }
}
