/** The growable array: an inline pool first, then heap memory of twice the size asked for. */
module GrowableArray {

  const INT_MAX: int := 0x7fff_ffff

  // ---------------------------------------------------------------- the cost of growing

  /** `copied` adds up the elements moved by growth; `largest` is the largest size reached. */
  datatype Ledger = Ledger(size: nat, capacity: nat, copied: nat, largest: nat)

  datatype Operation = Add(count: nat) | Drop(count: nat)

  function NewLedger(initial: nat): Ledger {
    Ledger(0, initial, 0, 0)
  }

  function Step(l: Ledger, op: Operation): Ledger {
    match op
    case Add(n) =>
      var size := l.size + n;
      var largest := if l.largest < size then size else l.largest;
      if l.capacity < size then Ledger(size, 2 * size, l.copied + l.size, largest)
      else Ledger(size, l.capacity, l.copied, largest)
    case Drop(n) => if n <= l.size then l.(size := l.size - n) else l
  }

  function Steps(l: Ledger, run: seq<Operation>): Ledger
    decreases |run|
  {
    if run == [] then l else Step(Steps(l, run[..|run| - 1]), run[|run| - 1])
  }

  predicate Affordable(initial: nat, l: Ledger) {
    && l.size <= l.capacity && l.size <= l.largest && initial <= l.capacity
    && l.copied <= l.capacity - initial
    && (l.capacity == initial || l.capacity <= 2 * l.largest)
  }

  /** Over any run, growth copies at most `capacity - initial` elements: at most twice the largest size. */
  lemma {:induction false} CopyingIsLinear(initial: nat, run: seq<Operation>)
    ensures var l := Steps(NewLedger(initial), run);
      Affordable(initial, l) && l.copied <= l.capacity - initial <= 2 * l.largest
    decreases |run|
  {
    if run != [] { CopyingIsLinear(initial, run[..|run| - 1]); }
  }

  /** The elements that were there whenever the capacity changed. */
  function Moved(l: Ledger, run: seq<Operation>): nat
    decreases |run|
  {
    if run == [] then 0
    else
      var before, after := Steps(l, run[..|run| - 1]), Steps(l, run);
      Moved(l, run[..|run| - 1]) + if after.capacity != before.capacity then before.size else 0
  }

  /** The count of copies leaves none out: a change of capacity copies what is there, and nothing else copies. */
  lemma {:induction false} CopiesCounted(initial: nat, run: seq<Operation>)
    ensures Steps(NewLedger(initial), run).copied == Moved(NewLedger(initial), run)
    decreases |run|
  {
    if run != [] {
      CopiesCounted(initial, run[..|run| - 1]);
      CopyingIsLinear(initial, run[..|run| - 1]);
    }
  }

  // ---------------------------------------------------------------- removal by swapping

  function SwapRemoved<T>(s: seq<T>, i: nat): (r: seq<T>)
    requires i < |s|
    ensures |r| == |s| - 1
  {
    s[i := s[|s| - 1]][..|s| - 1]
  }

  /** Exactly one element goes, whatever becomes of the order. */
  lemma SwapRemovedTakesOne<T>(s: seq<T>, i: nat)
    requires i < |s|
    ensures multiset(SwapRemoved(s, i)) == multiset(s) - multiset{s[i]}
  {
    var last := s[|s| - 1];
    var t := s[i := last];
    assert t == SwapRemoved(s, i) + [last] || i == |s| - 1;
    assert s == s[..|s| - 1] + [last];
    if i == |s| - 1 {
      assert SwapRemoved(s, i) == s[..|s| - 1];
    } else {
      assert multiset(t) == multiset(s) - multiset{s[i]} + multiset{last};
    }
  }

  // ---------------------------------------------------------------- the object

  class DynArray<T(0)> {
    const pool: array<T>
    var mem: array<T>
    var size: int
    var capacity: int
    ghost var ledger: Ledger

    ghost predicate Valid()
      reads this
    {
      && 0 <= size <= capacity == mem.Length <= INT_MAX && pool.Length <= capacity
      && (mem == pool <==> capacity == pool.Length)
      && ledger.size == size && ledger.capacity == capacity && Affordable(pool.Length, ledger)
    }

    ghost function Contents(): seq<T>
      requires Valid()
      reads this, mem
    {
      mem[..size]
    }

    constructor (initial: nat)
      requires initial <= INT_MAX
      ensures Valid() && Contents() == [] && pool.Length == initial && ledger == NewLedger(initial) && fresh(mem)
        && fresh(pool)
    {
      pool := new T[initial];
      new;
      mem, size, capacity, ledger := pool, 0, initial, NewLedger(initial);
    }

    method Clear()
      requires Valid()
      modifies this
      ensures Valid() && Contents() == [] && mem == old(mem) && ledger == Step(old(ledger), Drop(old(size)))
    {
      ledger := Step(ledger, Drop(size));
      size := 0;
    }

    /** What the source asserts before it grows: the new capacity must not overflow an int. */
    predicate Fits(count: int)
      reads this
    {
      && 0 <= count <= INT_MAX - size && 0 < size + count
      && (capacity < size + count ==> size + count <= INT_MAX / 2)
    }

    method EnsureCapacity(cap: int)
      requires Valid() && 0 < cap && (capacity < cap ==> cap <= INT_MAX / 2)
      modifies this`mem, this`capacity, this`ledger
      ensures 0 <= size <= mem.Length == capacity <= INT_MAX && cap <= capacity && (mem == old(mem) || fresh(mem))
      ensures mem == pool <==> capacity == pool.Length
      ensures mem[..size] == old(Contents())
      ensures if cap <= old(capacity) then mem == old(mem) && capacity == old(capacity) && ledger == old(ledger)
        else capacity == 2 * cap && ledger == old(ledger).(copied := old(ledger).copied + size, capacity := 2 * cap)
    {
      if capacity < cap {
        var newAllocated := cap * 2;
        var newMem := new T[newAllocated];
        var source, count := mem, size;
        for i := 0 to count
          modifies newMem
          invariant forall j :: 0 <= j < i ==> newMem[j] == source[j]
        {
          newMem[i] := source[i];
        }
        ledger := ledger.(copied := ledger.copied + count, capacity := newAllocated);
        mem := newMem;
        capacity := newAllocated;
      }
    }

    method Push(t: T)
      requires Valid() && Fits(1)
      modifies this, mem
      ensures Valid() && Contents() == old(Contents()) + [t] && (mem == old(mem) || fresh(mem))
      ensures ledger == Step(old(ledger), Add(1))
    {
      ghost var before := ledger;
      EnsureCapacity(size + 1);
      mem[size] := t;
      size := size + 1;
      assert ledger.copied == Step(before, Add(1)).copied && ledger.capacity == Step(before, Add(1)).capacity;
      ledger := Step(before, Add(1));
    }

    /** Room for `count` more elements, whose contents are whatever the memory holds; `at` is the first. */
    method PushArr(count: int) returns (at: int)
      requires Valid() && Fits(count)
      modifies this
      ensures Valid() && at == old(size) && size == old(size) + count && Contents()[..at] == old(Contents())
      ensures (mem == old(mem) || fresh(mem)) && ledger == Step(old(ledger), Add(count))
    {
      ghost var before := ledger;
      EnsureCapacity(size + count);
      at := size;
      size := size + count;
      assert ledger.copied == Step(before, Add(count)).copied && ledger.capacity == Step(before, Add(count)).capacity;
      ledger := Step(before, Add(count));
      assert mem[..size][..at] == mem[..at];
    }

    method Pop() returns (t: T)
      requires Valid() && 0 < size
      modifies this
      ensures Valid() && Contents() + [t] == old(Contents()) && mem == old(mem) && ledger == Step(old(ledger), Drop(1))
    {
      size := size - 1;
      ledger := Step(ledger, Drop(1));
      t := mem[size];
    }

    method PopArr(count: int)
      requires Valid() && 0 <= count <= size
      modifies this
      ensures Valid() && Contents() == old(Contents())[..old(size) - count] && mem == old(mem)
      ensures ledger == Step(old(ledger), Drop(count))
    {
      size := size - count;
      ledger := Step(ledger, Drop(count));
    }

    method SwapRemove(i: int)
      requires Valid() && 0 <= i < size
      modifies this, mem
      ensures Valid() && Contents() == SwapRemoved(old(Contents()), i) && mem == old(mem)
      ensures ledger == Step(old(ledger), Drop(1))
    {
      mem[i] := mem[size - 1];
      size := size - 1;
      ledger := Step(ledger, Drop(1));
    }

    method Get(i: int) returns (t: T)
      requires Valid() && 0 <= i < size
      ensures t == Contents()[i]
    {
      t := mem[i];
    }
  }
}
