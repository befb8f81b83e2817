/**
 * What the fixed-block allocator promises: capacity, distinct blocks inside
 * the pool, LIFO reuse, and the errors of construction and `Malloc`.
 */
module AllocatorProperties {
  import opened Outcomes
  import opened FixedBlockPools
  import opened FixedBlockAllocators

  /** The constructor's list holds each block below `count` exactly once, counting down from the head. */
  lemma {:induction false} CountdownLists(count: nat)
    ensures |Countdown(count)| == count
    ensures forall k :: 0 <= k < count ==> Countdown(count)[k] == count - 1 - k
  {
    if count > 0 {
      CountdownLists(count - 1);
    }
  }

  lemma CountdownIsEveryBlockOnce(count: nat)
    ensures Distinct(Countdown(count))
    ensures forall b: nat :: b in Countdown(count) <==> b < count
  {
    CountdownLists(count);
    var s := Countdown(count);
    forall b: nat | b < count ensures b in s {
      assert s[count - 1 - b] == b;
    }
    forall b | b in s ensures b < count {
      var k :| 0 <= k < |s| && s[k] == b;
    }
  }

  /**
   * Construction fails on a zero block size, then on a pool with no whole
   * block; otherwise there are `poolSize / blockSize` blocks. When a block
   * can hold its link, the allocator is valid with every block free, each
   * once, the highest one at the head.
   */
  lemma ConstructionFreesEveryBlock(poolStart: nat, poolSize: nat, blockSize: nat)
    ensures blockSize == 0 ==> Initial(poolStart, poolSize, blockSize) == Failure(ZeroBlockSize)
    ensures blockSize > 0 && poolSize < blockSize ==> Initial(poolStart, poolSize, blockSize) == Failure(PoolTooSmall)
    ensures blockSize > 0 && poolSize >= blockSize ==>
      && Initial(poolStart, poolSize, blockSize).Success?
      && Initial(poolStart, poolSize, blockSize).value.blockCount == poolSize / blockSize
      && Initial(poolStart, poolSize, blockSize).value.blockSize == blockSize
    ensures blockSize >= FreeBlockSize && poolSize >= blockSize ==>
      var a := Initial(poolStart, poolSize, blockSize).value;
      && a.Valid()
      && |a.freeList| == a.blockCount
      && (forall b: nat :: b in a.freeList <==> b < a.blockCount)
      && a.freeList[0] == a.blockCount - 1
  {
    if blockSize > 0 && poolSize >= blockSize {
      var count := poolSize / blockSize;
      assert count >= 1;
      CountdownLists(count);
      CountdownIsEveryBlockOnce(count);
    } else if blockSize > 0 {
      assert poolSize / blockSize == 0;
    }
  }

  /** `count` whole blocks of `blockSize` bytes fit in the pool. */
  lemma WholeBlocksFit(poolSize: nat, blockSize: nat, n: nat)
    requires blockSize > 0 && n <= poolSize / blockSize
    ensures n * blockSize <= poolSize
  {
    var count := poolSize / blockSize;
    assert count * blockSize <= poolSize;
    assert (count - n) * blockSize >= 0;
  }

  /** Every block an allocator over `poolSize` bytes can hand out lies wholly inside the pool. */
  lemma BlockInsidePool(a: AllocatorState, poolSize: nat, block: nat)
    requires a.blockSize > 0 && a.blockCount == poolSize / a.blockSize
    requires block < a.blockCount
    ensures a.poolStart <= a.Address(block)
    ensures a.Address(block) + a.blockSize <= a.poolStart + poolSize
  {
    WholeBlocksFit(poolSize, a.blockSize, block + 1);
    assert (block + 1) * a.blockSize == block * a.blockSize + a.blockSize;
  }

  /** Two different blocks occupy disjoint byte ranges. */
  lemma DistinctBlocksDoNotOverlap(a: AllocatorState, b1: nat, b2: nat)
    requires a.blockSize > 0 && b1 < b2
    ensures a.Address(b1) + a.blockSize <= a.Address(b2)
  {
    assert (b2 - b1) * a.blockSize >= a.blockSize by {
      assert (b2 - b1 - 1) * a.blockSize >= 0;
    }
    assert b2 * a.blockSize - b1 * a.blockSize == (b2 - b1) * a.blockSize;
  }

  /**
   * `Malloc(size)` fails with `SizeExceeded` above the block size, then with
   * `OutOfBlocks` on an empty free list, changing nothing; otherwise it
   * returns the head block, which leaves the free list, and the allocator
   * stays valid with its block size unchanged.
   */
  lemma MallocTakesHead(a: AllocatorState, size: nat)
    requires a.Valid()
    ensures size > a.blockSize ==> a.Malloc(size) == (Failure(SizeExceeded), a)
    ensures size <= a.blockSize && a.freeList == [] ==> a.Malloc(size) == (Failure(OutOfBlocks), a)
    ensures size <= a.blockSize && a.freeList != [] ==>
      var (r, t) := a.Malloc(size);
      && r == Success(a.freeList[0]) && r.value < a.blockCount
      && t.Valid() && t.blockSize == a.blockSize
      && r.value !in t.freeList && t.freeList == a.freeList[1..]
  {
    if size <= a.blockSize && a.freeList != [] {
      var t := a.Malloc(size).1;
      assert forall k :: 0 <= k < |t.freeList| ==> t.freeList[k] == a.freeList[k + 1];
    }
  }

  /** `Free(null)` changes nothing; freeing a block in use keeps the allocator valid and puts the block at the head. */
  lemma FreeInUseBlockKeepsValid(a: AllocatorState, block: nat)
    requires a.Valid() && block < a.blockCount && block !in a.freeList
    ensures a.Free(None) == a
    ensures a.Free(Some(block)).Valid() && a.Free(Some(block)).freeList[0] == block
  {
    var t := a.Free(Some(block));
    assert forall k :: 1 <= k < |t.freeList| ==> t.freeList[k] == a.freeList[k - 1];
  }

  /** The source does not detect a double free: the block is then listed twice and would be handed out twice. */
  lemma DoubleFreeListsBlockTwice(a: AllocatorState, block: nat)
    requires a.Valid() && block in a.freeList
    ensures !a.Free(Some(block)).Valid()
  {
    var t := a.Free(Some(block));
    var k :| 0 <= k < |a.freeList| && a.freeList[k] == block;
    assert t.freeList[0] == t.freeList[k + 1];
  }

  /** LIFO reuse: the block freed last is the block the next `Malloc` returns, and the allocator is as before the free. */
  lemma FreeThenMallocReturnsIt(a: AllocatorState, block: nat, size: nat)
    requires size <= a.blockSize
    ensures a.Free(Some(block)).Malloc(size) == (Success(block), a)
  {
    assert ([block] + a.freeList)[1..] == a.freeList;
  }

  /** Freeing the block `Malloc` just returned restores the allocator exactly. */
  lemma MallocThenFreeRestores(a: AllocatorState, size: nat)
    requires a.Malloc(size).0.Success?
    ensures a.Malloc(size).1.Free(Some(a.Malloc(size).0.value)) == a
  {
    assert [a.freeList[0]] + a.freeList[1..] == a.freeList;
  }

  /** `Malloc` repeated as often as there are free blocks succeeds every time and returns the free list in order, emptying it. */
  lemma {:induction false} MallocManyDrains(a: AllocatorState, size: nat)
    requires size <= a.blockSize
    ensures MallocMany(a, size, |a.freeList|) == Success((a.freeList, a.(freeList := [])))
    decreases |a.freeList|
  {
    if a.freeList != [] {
      var t := a.Malloc(size).1;
      MallocManyDrains(t, size);
      assert [a.freeList[0]] + t.freeList == a.freeList;
    }
  }

  /**
   * A new allocator serves exactly `blockCount` consecutive `Malloc` calls:
   * each succeeds, no block is returned twice, every block lies inside the
   * pool, and the next call fails with `OutOfBlocks`.
   */
  lemma FreshAllocatorServesExactlyBlockCount(poolStart: nat, poolSize: nat, blockSize: nat, size: nat)
    requires Initial(poolStart, poolSize, blockSize).Success? && blockSize >= FreeBlockSize
    requires size <= blockSize
    ensures var a := Initial(poolStart, poolSize, blockSize).value;
      && MallocMany(a, size, a.blockCount).Success?
      && var (blocks, rest) := MallocMany(a, size, a.blockCount).value;
      && |blocks| == a.blockCount
      && Distinct(blocks)
      && (forall k :: 0 <= k < |blocks| ==>
            poolStart <= a.Address(blocks[k]) && a.Address(blocks[k]) + blockSize <= poolStart + poolSize)
      && rest.Malloc(size).0 == Failure(OutOfBlocks)
  {
    var a := Initial(poolStart, poolSize, blockSize).value;
    ConstructionFreesEveryBlock(poolStart, poolSize, blockSize);
    MallocManyDrains(a, size);
    forall k | 0 <= k < |a.freeList|
      ensures poolStart <= a.Address(a.freeList[k]) && a.Address(a.freeList[k]) + blockSize <= poolStart + poolSize
    {
      BlockInsidePool(a, poolSize, a.freeList[k]);
    }
  }

  /**
   * The constructor does not make sure a block can hold its link. Below
   * `FreeBlockSize` bytes the 8-byte link written into each block reaches
   * into the next block, whose own link is written after it: the links
   * overwrite one another, and the allocator is not valid.
   */
  lemma SmallBlockLinksOverlap(poolStart: nat, poolSize: nat, blockSize: nat)
    requires 0 < blockSize < FreeBlockSize && poolSize >= blockSize
    ensures Initial(poolStart, poolSize, blockSize).Success?
    ensures var a := Initial(poolStart, poolSize, blockSize).value;
      && !a.Valid()
      && forall b :: 0 <= b < a.blockCount - 1 ==> a.Address(b) + FreeBlockSize > a.Address(b + 1)
  {
    ConstructionFreesEveryBlock(poolStart, poolSize, blockSize);
  }

  /**
   * The constructor's links for a pool of 4000 bytes and a block size of 4:
   * 1000 blocks, each link overlapping the next block's, and the link of the
   * last block, which heads the free list, running past the end of the pool.
   */
  lemma SmallBlockLinkOverrunsPool()
    ensures Initial(0, 4000, 4).Success?
    ensures var a := Initial(0, 4000, 4).value;
      && a.blockCount == 1000 && a.freeList[0] == 999 && !a.Valid()
      && (forall b :: 0 <= b < 999 ==> a.Address(b) + FreeBlockSize > a.Address(b + 1))
      && a.Address(999) + FreeBlockSize > 4000
  {
    SmallBlockLinksOverlap(0, 4000, 4);
    CountdownLists(1000);
  }

  /** With the block size rounded up first, the link of every block lies inside the pool. */
  lemma RoundedUpLinksInsidePool(poolStart: nat, poolSize: nat, blockSize: nat)
    requires InitialRoundedUp(poolStart, poolSize, blockSize).Success?
    ensures var a := InitialRoundedUp(poolStart, poolSize, blockSize).value;
      a.Valid() && a.blockSize >= FreeBlockSize && a.blockSize >= blockSize
      && forall b :: 0 <= b < a.blockCount ==> a.Address(b) + FreeBlockSize <= poolStart + poolSize
  {
    var size := EnsureMinBlockSize(blockSize).value;
    ConstructionFreesEveryBlock(poolStart, poolSize, size);
    var a := InitialRoundedUp(poolStart, poolSize, blockSize).value;
    forall b | 0 <= b < a.blockCount
      ensures a.Address(b) + FreeBlockSize <= poolStart + poolSize
    {
      BlockInsidePool(a, poolSize, b);
    }
  }

  /**
   * The unit-test scenario: a pool sized for 1000 four-byte objects, the
   * block size rounded up; two allocations give two different blocks, both
   * are freed, and the next allocation succeeds again with the block freed last.
   */
  method AllocateFreeAllocateAgain() returns (first: Result<nat>, second: Result<nat>, third: Result<nat>)
    ensures first.Success? && second.Success? && third.Success?
    ensures first.value != second.value
    ensures third.value == second.value
  {
    var blockSize := EnsureMinBlockSize(4).value;
    var pool := CreatePool(1000 * 4, 0);
    ConstructionFreesEveryBlock(0, 4000, blockSize);
    var allocator := new FixedBlockAllocator(pool, blockSize);
    first := allocator.Malloc(blockSize);
    second := allocator.Malloc(blockSize);
    allocator.Free(Some(first.value));
    allocator.Free(Some(second.value));
    third := allocator.Malloc(blockSize);
  }
}
