/** The pool allocator: blocks of items, a free list threaded through the items themselves, and counters. */
module MemPool {

  import opened Basics

  // ---------------------------------------------------------------- counting blocks

  /** The allocator reduced to numbers: live items, high-water mark, blocks. */
  datatype Ledger = Ledger(live: nat, highest: nat, blocks: nat)

  datatype Operation = Allocate | Release

  /** The number of items in so many blocks. */
  function Room(blocks: nat, perBlock: Positive): nat {
    if blocks == 0 then 0 else Room(blocks - 1, perBlock) + perBlock
  }

  lemma {:induction false} RoomIsProduct(blocks: nat, perBlock: Positive)
    ensures Room(blocks, perBlock) == blocks * perBlock
  {
    if 0 < blocks {
      RoomIsProduct(blocks - 1, perBlock);
      assert blocks * perBlock == (blocks - 1) * perBlock + perBlock;
    }
  }

  function Step(perBlock: Positive, l: Ledger, op: Operation): Ledger {
    match op
    case Allocate =>
      Ledger(l.live + 1, if l.highest < l.live + 1 then l.live + 1 else l.highest,
             if l.live == Room(l.blocks, perBlock) then l.blocks + 1 else l.blocks)
    case Release => if 0 < l.live then l.(live := l.live - 1) else l
  }

  function Steps(perBlock: Positive, run: seq<Operation>): Ledger
    decreases |run|
  {
    if run == [] then Ledger(0, 0, 0) else Step(perBlock, Steps(perBlock, run[..|run| - 1]), run[|run| - 1])
  }

  /** The number of live items after each of the first operations. */
  function LiveAfter(perBlock: Positive, run: seq<Operation>, k: nat): nat
    requires k <= |run|
  {
    Steps(perBlock, run[..k]).live
  }

  predicate Tight(perBlock: Positive, l: Ledger) {
    l.live <= l.highest && Scarce(perBlock, l.blocks, l.highest)
  }

  /** The blocks are enough, and one block fewer would not be. */
  predicate Scarce(perBlock: Positive, blocks: nat, highest: nat) {
    highest <= Room(blocks, perBlock) && (0 < blocks ==> Room(blocks - 1, perBlock) < highest)
  }

  lemma StepTight(perBlock: Positive, l: Ledger, op: Operation)
    requires Tight(perBlock, l)
    ensures Tight(perBlock, Step(perBlock, l, op))
  {
  }

  lemma CeilingUnique(perBlock: Positive, highest: nat, blocks: nat)
    requires Scarce(perBlock, blocks, highest)
    ensures blocks == (highest + perBlock - 1) / perBlock
  {
    RoomIsProduct(blocks, perBlock);
    QuotientUnique(highest + perBlock - 1, perBlock, blocks);
  }

  lemma QuotientUnique(n: nat, d: Positive, q: nat)
    requires q * d <= n < q * d + d
    ensures n / d == q
  {
    var r := n / d;
    assert r * d <= n < r * d + d by { assert n == r * d + n % d; }
    CannotExceed(q, r, d, n);
    CannotExceed(r, q, d, n);
  }

  lemma CannotExceed(q: nat, r: nat, d: Positive, n: nat)
    requires q * d <= n && n < r * d + d
    ensures q <= r
  {
    if r < q { MulMonotone(r + 1, q, d); }
  }

  lemma {:induction false} MulMonotone(a: nat, b: nat, d: nat)
    requires a <= b
    ensures a * d <= b * d
  {
    if a < b {
      MulMonotone(a, b - 1, d);
      assert b * d == (b - 1) * d + d;
    }
  }

  /** Over any run, the number of blocks is the high-water mark divided by the block size, rounded up; and the
      high-water mark is the largest number of items that were live at once. */
  lemma {:induction false} BlocksAreOptimal(perBlock: Positive, run: seq<Operation>)
    ensures var l := Steps(perBlock, run);
      && Tight(perBlock, l) && l.blocks == (l.highest + perBlock - 1) / perBlock
      && (forall k :: 0 <= k <= |run| ==> LiveAfter(perBlock, run, k) <= l.highest)
      && (exists k :: 0 <= k <= |run| && LiveAfter(perBlock, run, k) == l.highest)
    decreases |run|
  {
    hide Step, Scarce;
    var l := Steps(perBlock, run);
    assert run[..|run|] == run;
    if run == [] {
      assert LiveAfter(perBlock, run, 0) == 0;
      NothingTight(perBlock);
    } else {
      var front := run[..|run| - 1];
      var f := Steps(perBlock, front);
      BlocksAreOptimal(perBlock, front);
      StepTight(perBlock, f, run[|run| - 1]);
      StepHighest(perBlock, f, run[|run| - 1]);
      forall k | 0 <= k < |run| ensures LiveAfter(perBlock, run, k) == LiveAfter(perBlock, front, k) {
        assert run[..k] == front[..k];
      }
      if l.highest == f.highest {
        var k :| 0 <= k <= |front| && LiveAfter(perBlock, front, k) == f.highest;
        assert LiveAfter(perBlock, run, k) == l.highest;
      } else {
        assert LiveAfter(perBlock, run, |run|) == l.highest;
      }
    }
    CeilingUnique(perBlock, l.highest, l.blocks);
  }

  lemma NothingTight(perBlock: Positive)
    ensures Scarce(perBlock, 0, 0)
  {
  }

  lemma StepHighest(perBlock: Positive, l: Ledger, op: Operation)
    requires Tight(perBlock, l)
    ensures var m := Step(perBlock, l, op);
      l.highest <= m.highest && m.live <= m.highest && (m.highest == l.highest || m.highest == m.live)
  {
  }

  // ---------------------------------------------------------------- the free list

  /** An item's memory is the link of the free list while the item is free, and the user's while it is live. */
  class Item {
    var next: Item?

    constructor ()
      ensures next == null
    {
      next := null;
    }
  }

  /** `list` is what following the links from `root` visits. */
  ghost predicate Linked(root: Item?, list: seq<Item>)
    reads list
  {
    && root == First(list)
    && forall i :: 0 <= i < |list| ==> list[i].next == First(list[i + 1..])
  }

  ghost function First(list: seq<Item>): Item? {
    if list == [] then null else list[0]
  }

  ghost predicate NoRepeat(list: seq<Item>) {
    forall i, j :: 0 <= i < j < |list| ==> list[i] != list[j]
  }

  ghost function SetOf(list: seq<Item>): set<Item> {
    set x | x in list
  }

  /** Every item is either once in the free list or live. */
  ghost predicate Splits(free: seq<Item>, live: set<Item>, all: set<Item>) {
    NoRepeat(free) && SetOf(free) !! live && SetOf(free) + live == all
  }

  lemma TakeHead(free: seq<Item>, live: set<Item>, all: set<Item>)
    requires Splits(free, live, all) && free != []
    ensures free[0] !in live && Splits(free[1..], live + {free[0]}, all)
  {
    assert SetOf(free) == SetOf(free[1..]) + {free[0]};
  }

  lemma PutHead(free: seq<Item>, live: set<Item>, all: set<Item>, x: Item)
    requires Splits(free, live, all) && x in live
    ensures x !in free && Splits([x] + free, live - {x}, all)
  {
    assert x !in SetOf(free);
    assert SetOf([x] + free) == SetOf(free) + {x};
  }

  lemma NewItems(block: seq<Item>, live: set<Item>, all: set<Item>)
    requires Splits([], live, all) && NoRepeat(block) && forall i :: 0 <= i < |block| ==> block[i] !in all
    ensures Splits(block, live, all + SetOf(block))
  {
  }

  lemma LinkedTail(root: Item?, list: seq<Item>)
    requires Linked(root, list) && list != []
    ensures root == list[0] && Linked(list[0].next, list[1..])
  {
    forall i | 0 <= i < |list[1..]| ensures list[1..][i].next == First(list[1..][i + 1..]) {
      assert list[1..][i] == list[i + 1] && list[1..][i + 1..] == list[i + 2..];
    }
    assert list[0 + 1..] == list[1..];
  }

  lemma LinkedCons(x: Item, root: Item?, list: seq<Item>)
    requires Linked(root, list) && x.next == root
    ensures Linked(x, [x] + list)
  {
    var longer := [x] + list;
    forall i | 0 <= i < |longer| ensures longer[i].next == First(longer[i + 1..]) {
      if i == 0 {
        assert longer[1..] == list;
      } else {
        assert longer[i] == list[i - 1] && longer[i + 1..] == list[i..];
      }
    }
  }

  /** Every item of every block. */
  ghost function AllItems(blocks: seq<seq<Item>>): set<Item> {
    if blocks == [] then {} else AllItems(blocks[..|blocks| - 1]) + SetOf(blocks[|blocks| - 1])
  }

  /** The blocks' items, split into the free list and the live ones. */
  ghost predicate Partition(perBlock: Positive, blocks: seq<seq<Item>>, free: seq<Item>, live: set<Item>,
                            all: set<Item>) {
    && Splits(free, live, all) && all == AllItems(blocks)
    && Room(|blocks|, perBlock) == |free| + |live|
  }

  /** The counters, as the history of operations has them. */
  ghost predicate Counted(perBlock: Positive, run: seq<Operation>, live: set<Item>, blocks: nat, current: int,
                          highest: int) {
    current == |live| && 0 <= highest && Steps(perBlock, run) == Ledger(|live|, highest, blocks)
  }

  lemma PartitionTake(perBlock: Positive, blocks: seq<seq<Item>>, free: seq<Item>, live: set<Item>, all: set<Item>)
    requires Partition(perBlock, blocks, free, live, all) && free != []
    ensures free[0] !in live && Partition(perBlock, blocks, free[1..], live + {free[0]}, all)
  {
    hide AllItems, Room, NoRepeat;
    TakeHead(free, live, all);
  }

  lemma PartitionPut(perBlock: Positive, blocks: seq<seq<Item>>, free: seq<Item>, live: set<Item>, all: set<Item>,
                     x: Item)
    requires Partition(perBlock, blocks, free, live, all) && x in live
    ensures x !in free && Partition(perBlock, blocks, [x] + free, live - {x}, all)
  {
    hide AllItems, Room, NoRepeat;
    PutHead(free, live, all, x);
  }

  lemma PartitionGrow(perBlock: Positive, blocks: seq<seq<Item>>, live: set<Item>, all: set<Item>, block: seq<Item>)
    requires Partition(perBlock, blocks, [], live, all)
    requires |block| == perBlock && NoRepeat(block) && forall i :: 0 <= i < |block| ==> block[i] !in all
    ensures Partition(perBlock, blocks + [block], block, live, all + SetOf(block))
  {
    hide NoRepeat;
    NewItems(block, live, all);
    assert (blocks + [block])[..|blocks|] == blocks;
  }

  /** An allocation adds a block exactly when no item is free. */
  lemma CountedAlloc(perBlock: Positive, run: seq<Operation>, blocks: seq<seq<Item>>, free: seq<Item>,
                     live: set<Item>, all: set<Item>, current: int, highest: int, x: Item)
    requires Partition(perBlock, blocks, free, live, all) && x !in live
    requires Counted(perBlock, run, live, |blocks|, current, highest)
    ensures Counted(perBlock, run + [Allocate], live + {x}, if free == [] then |blocks| + 1 else |blocks|,
                    current + 1, if current + 1 > highest then current + 1 else highest)
  {
    hide Steps, Splits, AllItems, Room;
    StepsAppend(perBlock, run, Allocate);
  }

  lemma CountedFree(perBlock: Positive, run: seq<Operation>, live: set<Item>, blocks: nat, current: int, highest: int,
                    x: Item)
    requires Counted(perBlock, run, live, blocks, current, highest) && x in live
    ensures Counted(perBlock, run + [Release], live - {x}, blocks, current - 1, highest)
  {
    hide Steps;
    StepsAppend(perBlock, run, Release);
  }

  lemma StepsAppend(perBlock: Positive, run: seq<Operation>, op: Operation)
    ensures Steps(perBlock, run + [op]) == Step(perBlock, Steps(perBlock, run), op)
  {
    assert (run + [op])[..|run|] == run;
  }

  lemma EmptyPool(perBlock: Positive)
    ensures Linked(null, []) && Partition(perBlock, [], [], {}, {}) && Counted(perBlock, [], {}, 0, 0, 0)
  {
  }

  class MemPoolT {
    const perBlock: Positive
    var blockPtrs: seq<seq<Item>>
    var root: Item?
    var currentAllocs: int
    var nAllocs: int
    var maxAllocs: int
    var nUntracked: int
    /** The free list, the items in the users' hands, all items, and what happened since the last Clear. */
    ghost var free: seq<Item>
    ghost var live: set<Item>
    ghost var all: set<Item>
    ghost var run: seq<Operation>
    ghost var tracked: nat

    ghost predicate Valid()
      reads this, free
    {
      && Linked(root, free) && Partition(perBlock, blockPtrs, free, live, all)
      && Counted(perBlock, run, live, |blockPtrs|, currentAllocs, maxAllocs)
      && nUntracked == nAllocs - tracked
    }

    constructor (itemSize: Positive)
      requires itemSize <= 4096
      ensures Valid() && perBlock == PerBlock(itemSize) && free == [] && live == {} && run == [] && blockPtrs == []
      ensures nAllocs == 0 && tracked == 0
    {
      perBlock := PerBlock(itemSize);
      blockPtrs, root, currentAllocs, nAllocs, maxAllocs, nUntracked := [], null, 0, 0, 0, 0;
      free, live, all, run, tracked := [], {}, {}, [], 0;
      EmptyPool(PerBlock(itemSize));
    }

    method Clear()
      requires Valid()
      modifies this
      ensures Valid() && free == [] && live == {} && run == [] && blockPtrs == [] && nAllocs == 0 && tracked == 0
    {
      hide Partition, Counted, Linked;
      while blockPtrs != []
        modifies this`blockPtrs
      {
        blockPtrs := blockPtrs[..|blockPtrs| - 1];
      }
      root := null;
      currentAllocs := 0;
      nAllocs := 0;
      maxAllocs := 0;
      nUntracked := 0;
      free, live, all, run, tracked := [], {}, {}, [], 0;
      EmptyPool(perBlock);
    }

    /** A block whose items are linked one after another. */
    method NewBlock() returns (items: seq<Item>)
      ensures |items| == perBlock && NoRepeat(items) && Linked(items[0], items)
      ensures forall i :: 0 <= i < |items| ==> fresh(items[i])
    {
      items := [];
      while |items| < perBlock
        invariant |items| <= perBlock && NoRepeat(items)
        invariant forall i :: 0 <= i < |items| ==> fresh(items[i])
        decreases perBlock - |items|
      {
        var item := new Item();
        items := items + [item];
      }
      ghost var block := SetOf(items);
      for i := 0 to perBlock - 1
        modifies block
        invariant forall j :: 0 <= j < i ==> items[j].next == items[j + 1]
      {
        items[i].next := items[i + 1];
      }
      items[perBlock - 1].next := null;
      assert forall i :: 0 <= i < |items| ==> items[i].next == First(items[i + 1..]);
    }

    /** The growing branch of Alloc: the new block's items are the free list. */
    method Grow()
      requires Partition(perBlock, blockPtrs, free, live, all) && free == []
      modifies this`blockPtrs, this`root, this`free, this`all
      ensures Linked(root, free) && Partition(perBlock, blockPtrs, free, live, all) && |free| == perBlock
      ensures |blockPtrs| == |old(blockPtrs)| + 1 && old(blockPtrs) <= blockPtrs
      ensures fresh(free[0]) && old(all) <= all
    {
      hide Linked, NoRepeat, Partition, SetOf, AllItems;
      var block := NewBlock();
      PartitionGrow(perBlock, blockPtrs, live, all, block);
      blockPtrs := blockPtrs + [block];
      all := all + SetOf(block);
      root := block[0];
      free := block;
    }

    /** An item that was not live becomes live; only an empty free list makes the pool grow, by one block. */
    method Alloc() returns (result: Item)
      requires Valid()
      modifies this
      ensures Valid() && result !in old(live) && live == old(live) + {result} && run == old(run) + [Allocate]
      ensures if old(free) == [] then |free| == perBlock - 1 && |blockPtrs| == |old(blockPtrs)| + 1 && fresh(result)
        else blockPtrs == old(blockPtrs) && result == old(free)[0] && free == old(free)[1..]
      ensures old(blockPtrs) <= blockPtrs && old(all) <= all
      ensures nAllocs == old(nAllocs) + 1 && tracked == old(tracked)
    {
      hide Linked, Partition, Counted;
      RootTells(root, free);
      if root == null { Grow(); }
      LinkedTail(root, free);
      result := root;
      PartitionTake(perBlock, blockPtrs, free, live, all);
      CountedAlloc(perBlock, run, old(blockPtrs), old(free), live, old(all), currentAllocs, maxAllocs, result);
      root := root.next;
      currentAllocs := currentAllocs + 1;
      if currentAllocs > maxAllocs { maxAllocs := currentAllocs; }
      nAllocs := nAllocs + 1;
      nUntracked := nUntracked + 1;
      free, live, run := free[1..], live + {result}, run + [Allocate];
    }

    /** The pool never holds more blocks than the most items that were live at once need. */
    lemma OptimalBlocks()
      requires Valid()
      ensures |blockPtrs| == (maxAllocs + perBlock - 1) / perBlock
      ensures forall k :: 0 <= k <= |run| ==> LiveAfter(perBlock, run, k) <= maxAllocs
      ensures exists k :: 0 <= k <= |run| && LiveAfter(perBlock, run, k) == maxAllocs
    {
      hide Partition, Linked, LiveAfter;
      BlocksAreOptimal(perBlock, run);
    }

    /** Null is ignored; a live item becomes the head of the free list. */
    method Free(mem: Item?)
      requires Valid() && (mem != null ==> mem in live)
      modifies this, if mem == null then {} else {mem}
      ensures Valid() && blockPtrs == old(blockPtrs) && all == old(all)
      ensures nAllocs == old(nAllocs) && tracked == old(tracked)
      ensures if mem == null then free == old(free) && live == old(live) && run == old(run)
        else free == [mem] + old(free) && live == old(live) - {mem} && run == old(run) + [Release]
    {
      hide Linked, Partition, Counted;
      if mem == null { return; }
      var item: Item := mem;
      CountedFree(perBlock, run, live, |blockPtrs|, currentAllocs, maxAllocs, item);
      PartitionPut(perBlock, blockPtrs, free, live, all, item);
      currentAllocs := currentAllocs - 1;
      item.next := root;
      LinkedCons(item, root, free);
      root := item;
      free, live, run := [item] + free, live - {item}, run + [Release];
    }

    method SetTracked()
      requires Valid()
      modifies this`nUntracked, this`tracked
      ensures Valid() && tracked == old(tracked) + 1 && nUntracked == old(nUntracked) - 1
    {
      hide Linked, Partition, Counted;
      nUntracked := nUntracked - 1;
      tracked := tracked + 1;
    }
  }

  lemma RootTells(root: Item?, list: seq<Item>)
    requires Linked(root, list)
    ensures root == null <==> list == []
  {
  }

  function PerBlock(itemSize: Positive): (r: Positive)
    requires itemSize <= 4096
    ensures r * itemSize <= 4096 < (r + 1) * itemSize
  {
    4096 / itemSize
  }
}
