/**
 * `FixedBlockAllocator` (mem_alloc_fixed_block/src/allocator.cpp): carves a
 * pool into `poolSize / blockSize` blocks of `blockSize` bytes and keeps the
 * unused ones on a singly linked free list threaded through the blocks.
 *
 * Blocks are named by their number `i`; block `i` starts at
 * `poolStart + i * blockSize`. The free list is the sequence of block
 * numbers from its head. `AllocatorState` is the allocator's value and its
 * operations; the class `FixedBlockAllocator` is proved to follow it.
 */
module FixedBlockAllocators {
  import opened Outcomes
  import opened FixedBlockPools

  /** `sizeof(FreeBlock)`: one link pointer, 8 bytes on a 64-bit target. */
  const FreeBlockSize: nat := 8

  /** `EnsureMinBlockSize(size)`: refuses zero, otherwise rounds up to the size of a free-list link. */
  function EnsureMinBlockSize(size: nat): (r: Result<nat>)
    ensures r.Failure? <==> size == 0
    ensures r.Failure? ==> r.error == ZeroBlockSize
    ensures r.Success? ==> r.value >= size && r.value >= FreeBlockSize
    ensures r.Success? ==> r.value == size || r.value == FreeBlockSize
  {
    if size == 0 then Failure(ZeroBlockSize)
    else if size < FreeBlockSize then Success(FreeBlockSize)
    else Success(size)
  }

  /** No block number occurs twice. */
  ghost predicate Distinct(blocks: seq<nat>)
  {
    forall j, k :: 0 <= j < k < |blocks| ==> blocks[j] != blocks[k]
  }

  /** The free list the constructor builds from `count` blocks: the highest block first, block 0 last. */
  function Countdown(count: nat): seq<nat>
  {
    if count == 0 then [] else [count - 1] + Countdown(count - 1)
  }

  datatype AllocatorState = AllocatorState(poolStart: nat, blockSize: nat, blockCount: nat, freeList: seq<nat>) {

    /**
     * A usable allocator: every block can hold its free-list link, and the
     * free list holds distinct blocks of the pool. Below `FreeBlockSize`
     * the links threaded through neighbouring blocks overlap, and the
     * sequence of block numbers no longer describes what memory holds.
     */
    ghost predicate Valid()
    {
      && blockSize >= FreeBlockSize && blockCount > 0
      && (forall k :: 0 <= k < |freeList| ==> freeList[k] < blockCount)
      && Distinct(freeList)
    }

    /** The address of the first byte of `block`. */
    function Address(block: nat): nat
    {
      poolStart + block * blockSize
    }

    /** `Malloc(size)`: refuses sizes above the block size and an empty free list; otherwise takes the head block. */
    function Malloc(size: nat): (Result<nat>, AllocatorState)
    {
      if size > blockSize then (Failure(SizeExceeded), this)
      else if freeList == [] then (Failure(OutOfBlocks), this)
      else (Success(freeList[0]), this.(freeList := freeList[1..]))
    }

    /** `Free(ptr)`: null changes nothing; any other block becomes the new head, unchecked. */
    function Free(block: Option<nat>): AllocatorState
    {
      if block.None? then this else this.(freeList := [block.value] + freeList)
    }
  }

  /**
   * The constructor's outcome: refuses a zero block size and a pool too
   * small for one block, otherwise every whole block is free.
   */
  function Initial(poolStart: nat, poolSize: nat, blockSize: nat): Result<AllocatorState>
  {
    if blockSize == 0 then Failure(ZeroBlockSize)
    else if poolSize / blockSize == 0 then Failure(PoolTooSmall)
    else Success(AllocatorState(poolStart, blockSize, poolSize / blockSize, Countdown(poolSize / blockSize)))
  }

  /** Construction with the block size first rounded up by `EnsureMinBlockSize`, so every block can hold its link. */
  function InitialRoundedUp(poolStart: nat, poolSize: nat, blockSize: nat): Result<AllocatorState>
  {
    match EnsureMinBlockSize(blockSize)
    case Failure(e) => Failure(e)
    case Success(size) => Initial(poolStart, poolSize, size)
  }

  /** `Malloc` called `n` times in a row with the same size: the blocks it returned, in order. */
  function MallocMany(a: AllocatorState, size: nat, n: nat): Result<(seq<nat>, AllocatorState)>
    decreases n
  {
    if n == 0 then Success(([], a))
    else
      match a.Malloc(size).0
      case Failure(e) => Failure(e)
      case Success(b) =>
        match MallocMany(a.Malloc(size).1, size, n - 1)
        case Failure(e) => Failure(e)
        case Success((rest, last)) => Success(([b] + rest, last))
  }

  class FixedBlockAllocator {
    const poolStart: nat
    /** `BLOCK_SIZE_`: fixed at construction and never changed. */
    const blockSize: nat
    const blockCount: nat
    /** `freeList_`: the free blocks from the head of the list. */
    var freeList: seq<nat>

    ghost function Model(): AllocatorState
      reads this
    {
      AllocatorState(poolStart, blockSize, blockCount, freeList)
    }

    /**
     * Threads every whole block of the pool onto the free list, block 0
     * first, so the highest block ends up at the head.
     */
    constructor (pool: FixedBlockPool, blockSize: nat)
      requires blockSize > 0 && pool.size / blockSize > 0
      ensures Initial(pool.address, pool.size, blockSize) == Success(Model())
    {
      this.blockSize := blockSize;
      poolStart := pool.address;
      var count := pool.size / blockSize;
      blockCount := count;
      freeList := [];
      new;
      var i := 0;
      while i < count
        invariant 0 <= i <= count
        invariant freeList == Countdown(i)
      {
        freeList := [i] + freeList;
        i := i + 1;
      }
    }

    /** The constructor with its two checks: a zero block size, then a pool with no whole block. */
    static method Construct(pool: FixedBlockPool, blockSize: nat) returns (r: Result<FixedBlockAllocator>)
      ensures Initial(pool.address, pool.size, blockSize).Failure? <==> r.Failure?
      ensures r.Failure? ==> r.error == Initial(pool.address, pool.size, blockSize).error
      ensures r.Success? ==> fresh(r.value) && Initial(pool.address, pool.size, blockSize) == Success(r.value.Model())
    {
      if blockSize == 0 {
        return Failure(ZeroBlockSize);
      }
      if pool.size / blockSize == 0 {
        return Failure(PoolTooSmall);
      }
      var a := new FixedBlockAllocator(pool, blockSize);
      r := Success(a);
    }

    method Malloc(size: nat) returns (r: Result<nat>)
      modifies this
      ensures (r, Model()) == old(Model()).Malloc(size)
    {
      if size > blockSize {
        return Failure(SizeExceeded);
      }
      if freeList == [] {
        return Failure(OutOfBlocks);
      }
      r := Success(freeList[0]);
      freeList := freeList[1..];
    }

    method Free(block: Option<nat>)
      modifies this
      ensures Model() == old(Model()).Free(block)
    {
      if block.None? {
        return;
      }
      freeList := [block.value] + freeList;
    }
  }
}
