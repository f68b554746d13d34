/** lock/memory_pool.h: a block allocator whose free cells are linked through their own first word.

Memory is an arena of cells numbered from 0 in the order in which blocks are obtained from the
system, so an address is an index and the null pointer is NULL.  The only user of the pool is
util_timer (timer/lst_timer.h), so a cell is written as the fields of a util_timer. */
module Pool {
  const NULL := -1

  /** One cell.  `expire` is the first word: while the cell is free it holds the free-list link. */
  datatype Cell = Cell(expire: int, callback: bool, userData: int,
                       prev: int, next: int, rotation: int, timeSlot: int)

  // ----- specification: the pool as a value -----

  /** `free` lists the free cells from the head on, `size` counts the cells of all blocks. */
  datatype PoolModel = PoolModel(free: seq<int>, live: set<int>, size: nat, blocks: nat)

  const EMPTY_POOL := PoolModel([], {}, 0, 0)

  function Range(lo: int, n: nat): (r: seq<int>)
    ensures |r| == n && forall i :: 0 <= i < n ==> r[i] == lo + i
  {
    seq(n, i => lo + i)
  }

  predicate Distinct(s: seq<int>) {
    forall i, j :: 0 <= i < j < |s| ==> s[i] != s[j]
  }

  /** Every cell of every block is either live or on the free list, once. */
  ghost predicate Partition(m: PoolModel) {
    && Distinct(m.free)
    && (forall p :: p in m.free <==> 0 <= p < m.size && p !in m.live)
    && (forall p :: p in m.live ==> 0 <= p < m.size)
    && |m.live| + |m.free| == m.size
  }

  /** The address the next allocation returns. */
  function NextAddress(m: PoolModel): int {
    if m.free != [] then m.free[0] else m.size
  }

  function AllocateModel(m: PoolModel, blockSize: nat): PoolModel
    requires blockSize >= 2
  {
    if m.free != [] then m.(free := m.free[1..], live := m.live + {m.free[0]})
    else PoolModel(Range(m.size + 1, blockSize - 1), m.live + {m.size}, m.size + blockSize, m.blocks + 1)
  }

  function DeallocateModel(m: PoolModel, p: int): PoolModel {
    m.(free := [p] + m.free, live := m.live - {p})
  }

  function DeallocateAll(m: PoolModel, ps: seq<int>): PoolModel {
    if ps == [] then m else DeallocateModel(DeallocateAll(m, ps[..|ps| - 1]), ps[|ps| - 1])
  }

  lemma AllocateKeepsPartition(m: PoolModel, blockSize: nat)
    requires blockSize >= 2 && Partition(m)
    ensures Partition(AllocateModel(m, blockSize))
    ensures NextAddress(m) !in m.live && AllocateModel(m, blockSize).live == m.live + {NextAddress(m)}
  {
    var r := AllocateModel(m, blockSize);
    if m.free != [] {
      assert m.free == [m.free[0]] + m.free[1..];
      assert forall p :: p in m.free <==> p == m.free[0] || p in r.free;
      assert m.free[0] in m.free;
    } else {
      forall p ensures p in r.free <==> m.size < p < r.size {
        if m.size < p < r.size { assert r.free[p - m.size - 1] == p; }
      }
      LiveIsBounded(m);
    }
  }

  lemma LiveIsBounded(m: PoolModel)
    requires Partition(m) && m.free == []
    ensures forall p :: 0 <= p < m.size ==> p in m.live
  {
    forall p | 0 <= p < m.size ensures p in m.live { assert p !in m.free; }
  }

  lemma DeallocateKeepsPartition(m: PoolModel, p: int)
    requires Partition(m) && p in m.live
    ensures Partition(DeallocateModel(m, p))
  {
    var r := DeallocateModel(m, p);
    assert p !in m.free;
    assert forall q :: q in r.free <==> q == p || q in m.free;
  }

  // ----- runs of the pool -----

  datatype PoolOp = Allocate | Deallocate(p: int)

  function RunPool(ops: seq<PoolOp>, blockSize: nat): PoolModel
    requires blockSize >= 2
  {
    if ops == [] then EMPTY_POOL else
    var m := RunPool(ops[..|ops| - 1], blockSize);
    match ops[|ops| - 1]
    case Allocate => AllocateModel(m, blockSize)
    case Deallocate(p) => DeallocateModel(m, p)
  }

  /** Only live cells are given back. */
  predicate ValidRun(ops: seq<PoolOp>, blockSize: nat)
    requires blockSize >= 2
  {
    ops != [] ==>
      && ValidRun(ops[..|ops| - 1], blockSize)
      && var last := ops[|ops| - 1];
         last.Deallocate? ==> last.p in RunPool(ops[..|ops| - 1], blockSize).live
  }

  /** Objects handed out and not given back, counted from the operations alone. */
  function LiveCount(ops: seq<PoolOp>): int {
    if ops == [] then 0
    else LiveCount(ops[..|ops| - 1]) + (if ops[|ops| - 1].Allocate? then 1 else -1)
  }

  /** The highest number of objects alive at any moment of the run. */
  function PeakLive(ops: seq<PoolOp>): (peak: int)
    ensures peak >= 0 && peak >= LiveCount(ops)
  {
    if ops == [] then 0
    else
      var before := PeakLive(ops[..|ops| - 1]);
      if LiveCount(ops) > before then LiveCount(ops) else before
  }

  function CeilDiv(n: nat, d: nat): nat
    requires d > 0
  {
    (n + d - 1) / d
  }

  lemma CeilDivUnique(n: nat, d: nat, q: nat)
    requires d > 0 && n <= q * d && (q > 0 ==> (q - 1) * d < n)
    ensures q == CeilDiv(n, d)
  {
    var r := n + d - 1 - q * d;
    if q == 0 {
      assert n == 0;
      SmallDiv(0, d, d - 1);
    } else {
      assert (q - 1) * d == q * d - d;
      SmallDiv(q, d, r);
    }
  }

  lemma SmallDiv(q: nat, d: nat, r: int)
    requires d > 0 && 0 <= r < d
    ensures (q * d + r) / d == q
  {
    var x := q * d + r;
    var e := x / d;
    assert x == e * d + x % d;
    if e < q {
      MulMonotone(e + 1, q, d);
    } else if e > q {
      MulMonotone(q + 1, e, d);
    }
  }

  lemma MulMonotone(a: int, b: int, d: nat)
    requires a <= b
    ensures a * d <= b * d
  {
  }

  lemma OneMoreBlock(blocks: nat, blockSize: nat)
    ensures (blocks + 1) * blockSize == blocks * blockSize + blockSize
  {
  }

  /** After any valid run the cells are partitioned into live cells and a free list without repeats,
      the live cells are exactly the objects not given back, and blocks were requested only as far
      as the peak demanded. */
  lemma {:induction false} PoolInvariant(ops: seq<PoolOp>, blockSize: nat)
    requires blockSize >= 2 && ValidRun(ops, blockSize)
    ensures var m := RunPool(ops, blockSize);
            && Partition(m)
            && |m.live| == LiveCount(ops)
            && m.size == m.blocks * blockSize
            && m.blocks == CeilDiv(PeakLive(ops), blockSize)
  {
    BlocksCoverPeak(ops, blockSize);
    var m := RunPool(ops, blockSize);
    CeilDivUnique(PeakLive(ops), blockSize, m.blocks);
  }

  /** The pool `m` with a peak of `peak` objects so far. */
  ghost predicate Covers(m: PoolModel, blockSize: nat, peak: int) {
    && Partition(m) && m.size == m.blocks * blockSize
    && |m.live| <= peak <= m.size && (m.blocks > 0 ==> (m.blocks - 1) * blockSize < peak)
  }

  lemma AllocateCovers(m: PoolModel, blockSize: nat, peak: int)
    requires blockSize >= 2 && Covers(m, blockSize, peak)
    ensures var m' := AllocateModel(m, blockSize);
      |m'.live| == |m.live| + 1 && Covers(m', blockSize, if |m'.live| > peak then |m'.live| else peak)
  {
    hide Partition;
    AllocateKeepsPartition(m, blockSize);
    OneMoreBlock(m.blocks, blockSize);
    Accounts(m);
    Accounts(AllocateModel(m, blockSize));
  }

  lemma Accounts(m: PoolModel)
    requires Partition(m)
    ensures |m.live| + |m.free| == m.size
  {
  }

  lemma DeallocateCovers(m: PoolModel, blockSize: nat, peak: int, p: int)
    requires blockSize >= 2 && Covers(m, blockSize, peak) && p in m.live
    ensures var m' := DeallocateModel(m, p); |m'.live| == |m.live| - 1 && Covers(m', blockSize, peak)
  {
    hide Partition;
    DeallocateKeepsPartition(m, p);
  }

  lemma {:induction false} BlocksCoverPeak(ops: seq<PoolOp>, blockSize: nat)
    requires blockSize >= 2 && ValidRun(ops, blockSize)
    ensures |RunPool(ops, blockSize).live| == LiveCount(ops) && Covers(RunPool(ops, blockSize), blockSize, PeakLive(ops))
    decreases |ops|
  {
    hide Covers, AllocateModel, DeallocateModel;
    if ops == [] {
      EmptyCovers(blockSize);
    } else {
      var before := ops[..|ops| - 1];
      BlocksCoverPeak(before, blockSize);
      var m := RunPool(before, blockSize);
      match ops[|ops| - 1]
      case Allocate => AllocateCovers(m, blockSize, PeakLive(before));
      case Deallocate(p) => DeallocateCovers(m, blockSize, PeakLive(before), p);
    }
  }

  lemma EmptyCovers(blockSize: nat)
    ensures Covers(EMPTY_POOL, blockSize, 0)
  {
  }

  /** The coincidence timer adjustment rests on: the cell given back last is the cell handed out
      next, and the pool is then exactly as it was. */
  lemma LastFreedIsNextAllocated(m: PoolModel, p: int, blockSize: nat)
    requires blockSize >= 2 && Partition(m) && p in m.live
    ensures NextAddress(DeallocateModel(m, p)) == p
    ensures AllocateModel(DeallocateModel(m, p), blockSize) == m
  {
    assert ([p] + m.free)[1..] == m.free;
    assert m.live - {p} + {p} == m.live;
  }

  // ----- the free list in memory -----

  /** Starting at `head` and following first words, the cells are `cells`, and then null. */
  predicate Chain(mem: seq<Cell>, head: int, cells: seq<int>)
    decreases |cells|
  {
    if cells == [] then head == NULL
    else
      && head == cells[0] && 0 <= head < |mem|
      && Chain(mem, mem[head].expire, cells[1..])
  }

  lemma ChainFrame(mem: seq<Cell>, mem': seq<Cell>, head: int, cells: seq<int>)
    requires Chain(mem, head, cells)
    requires |mem| <= |mem'|
    requires forall p :: p in cells && 0 <= p < |mem| ==> mem'[p].expire == mem[p].expire
    ensures Chain(mem', head, cells)
    decreases |cells|
  {
    if cells != [] {
      assert cells[0] in cells;
      assert forall p :: p in cells[1..] ==> p in cells;
      ChainFrame(mem, mem', mem[head].expire, cells[1..]);
    }
  }

  /** A block at address `base`, carved: each cell but the last links to its right neighbour. */
  predicate Carved(block: seq<Cell>, base: int) {
    forall i :: 0 <= i < |block| ==> block[i].expire == if i < |block| - 1 then base + i + 1 else NULL
  }

  lemma CarvedChain(mem: seq<Cell>, block: seq<Cell>, i: nat)
    requires Carved(block, |mem|) && 0 < i < |block|
    ensures Chain(mem + block, |mem| + i, Range(|mem| + i, |block| - i))
    decreases |block| - i
  {
    var cells := Range(|mem| + i, |block| - i);
    assert (mem + block)[|mem| + i] == block[i];
    if i + 1 < |block| {
      CarvedChain(mem, block, i + 1);
      assert cells[1..] == Range(|mem| + i + 1, |block| - i - 1);
    } else {
      assert cells[1..] == [];
    }
  }

  /** `m_free_list = &ptrs[1]` is the head of a list of cells exactly when a block has at least
      two cells; with one cell per block it points past the memory. */
  lemma CarvingNeedsTwoCells(mem: seq<Cell>, block: seq<Cell>)
    requires Carved(block, |mem|) && |block| > 0
    ensures IsListHead(mem + block, |mem| + 1) <==> |block| >= 2
  {
    if |block| >= 2 {
      CarvedChain(mem, block, 1);
    }
  }

  ghost predicate IsListHead(mem: seq<Cell>, head: int) {
    exists cells :: Chain(mem, head, cells)
  }

  // ----- the pool object -----

  class MemoryPool {
    const blockSize: nat
    var mem: seq<Cell>
    var freeList: int
    var blocks: seq<int>
    ghost var free: seq<int>
    ghost var live: set<int>

    ghost predicate Valid()
      reads this
    {
      && blockSize >= 2
      && Partition(Model())
      && (forall p :: p in live ==> 0 <= p < |mem|)
      && Chain(mem, freeList, free)
      && |mem| == |blocks| * blockSize
      && (forall k :: 0 <= k < |blocks| ==> blocks[k] == k * blockSize)
    }

    ghost function Model(): PoolModel
      reads this
    {
      PoolModel(free, live, |mem|, |blocks|)
    }

    constructor (blockSize: nat)
      requires blockSize >= 2
      ensures Valid() && Model() == EMPTY_POOL
    {
      this.blockSize := blockSize;
      mem, freeList, blocks := [], NULL, [];
      free, live := [], {};
    }

    /** Reading through a pointer: only live cells may be read. */
    function At(p: int): Cell
      requires p in live && Valid()
      reads this
    {
      mem[p]
    }

    /** Writing through a pointer: only live cells may be written. */
    method Put(p: int, c: Cell)
      requires Valid() && p in live
      modifies this`mem
      ensures Valid() && mem == old(mem)[p := c] && Model() == old(Model())
    {
      mem := mem[p := c];
      assert p !in free;
      ChainFrame(old(mem), mem, freeList, free);
    }

    /** Memory fresh from the system, of unknown content, with its cells linked in order. */
    method NewBlock(base: int) returns (block: array<Cell>)
      requires blockSize >= 2
      ensures fresh(block) && block.Length == blockSize && Carved(block[..], base)
    {
      block := new Cell[blockSize];
      for i := 0 to blockSize - 1
        invariant forall k :: 0 <= k < i ==> block[k].expire == base + k + 1
      {
        block[i] := block[i].(expire := base + i + 1);
      }
      block[blockSize - 1] := block[blockSize - 1].(expire := NULL);
    }

    /** A carved block is appended; its first cell is handed out, the rest is the free list. */
    method AddBlock(block: seq<Cell>)
      requires Valid() && freeList == NULL && |block| == blockSize && Carved(block, |mem|)
      modifies this
      ensures Valid() && Model() == AllocateModel(old(Model()), blockSize)
      ensures mem == old(mem) + block
    {
      hide Partition;
      CarvedChain(mem, block, 1);
      OneMoreBlock(|blocks|, blockSize);
      AllocateKeepsPartition(Model(), blockSize);
      free, live := Range(|mem| + 1, blockSize - 1), live + {|mem|};
      blocks := blocks + [|mem|];
      freeList := |mem| + 1;
      mem := mem + block;
    }

    method Allocate() returns (p: int)
      requires Valid()
      modifies this
      ensures Valid()
      ensures p == NextAddress(old(Model())) && p !in old(live)
      ensures Model() == AllocateModel(old(Model()), blockSize)
      ensures |old(mem)| <= |mem| && forall q :: 0 <= q < |old(mem)| ==> mem[q] == old(mem[q])
    {
      AllocateKeepsPartition(Model(), blockSize);
      hide Partition;
      if freeList != NULL {
        p := freeList;
        freeList := mem[freeList].expire;
        free, live := free[1..], live + {p};
      } else {
        var base := |mem|;
        var block := NewBlock(base);
        p := base;
        AddBlock(block[..]);
      }
    }

    method Deallocate(p: int)
      requires Valid() && p in live
      modifies this
      ensures Valid()
      ensures Model() == DeallocateModel(old(Model()), p)
      ensures |mem| == |old(mem)| && forall q :: 0 <= q < |mem| && q != p ==> mem[q] == old(mem[q])
    {
      DeallocateKeepsPartition(Model(), p);
      mem := mem[p := mem[p].(expire := freeList)];
      assert p !in free;
      ChainFrame(old(mem), mem, freeList, free);
      freeList := p;
      free, live := [p] + free, live - {p};
      assert free[1..] == old(free);
    }
  }
}
