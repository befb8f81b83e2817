/**
 * `FixedBlockPool` (mem_alloc_fixed_block/src/pool.cpp, include/pool.h): a
 * byte buffer of a size fixed at construction. It neither subdivides the
 * buffer nor tracks allocations.
 */
module FixedBlockPools {

  class FixedBlockPool {
    /** `SIZE`: fixed at construction. */
    const size: nat
    /** `pool_`: the buffer the pool owns. */
    const buffer: array<bv8>
    /** The address of the buffer's first byte, as the heap placed it. */
    const address: nat

    ghost predicate Valid()
      reads this
    {
      buffer.Length == size
    }

    /**
     * Allocates a new buffer of exactly `size` bytes. Pools cannot be
     * copied, so the buffer has this pool as its only owner. Where the heap
     * puts the buffer is outside the model, so its address is a parameter.
     */
    constructor (size: nat, address: nat)
      ensures Valid() && fresh(buffer)
      ensures this.size == size && this.address == address
    {
      this.size := size;
      this.address := address;
      buffer := new bv8[size];
    }

    /** `GetPool()`: the owned buffer, which holds `size` bytes. */
    method GetPool() returns (p: array<bv8>)
      requires Valid()
      ensures p == buffer && p.Length == size
    {
      p := buffer;
    }

    method GetSize() returns (n: nat)
      ensures n == size
    {
      n := size;
    }
  }

  /** `FixedBlockPoolFactory::Create(size)`: a new pool of that size with its own buffer. */
  method CreatePool(size: nat, address: nat) returns (pool: FixedBlockPool)
    ensures fresh(pool) && fresh(pool.buffer) && pool.Valid()
    ensures pool.size == size && pool.address == address
  {
    pool := new FixedBlockPool(size, address);
  }
}
