/**
 * Results of the library's operations.
 *
 * Every error path in the library ends in `NotifyError`, which logs the
 * message and then throws `std::runtime_error`; it never returns normally.
 * The model turns each such throw into a `Failure`/`Fail` value carrying
 * which check failed, and a failing call leaves the state it was given
 * unchanged (all checks run before the first mutation).
 */
module Outcomes {

  datatype Option<+T> = None | Some(value: T)

  /** Which `NotifyError` call site a failure comes from. */
  datatype Error =
    // container.h
    | AlreadyCreated          // "Container already created with count"
    | IdOutOfRange            // "ID out of range"
    | NoObject                // "No object found for ID"
    | GenerationMismatch      // "ID generation mismatch for ID"
    | IndexOutOfRange         // "Index out of range" (GetGeneration)
    // registry.h, factory_registry.h
    | NullEntry               // "Entry cannot be null" / "Factory cannot be null"
    | EntryOutOfRange         // "ID out of range" / "Factory ID out of range"
    // allocator.cpp
    | ZeroBlockSize           // "Block size must be greater than zero"
    | PoolTooSmall            // "Pool size is too small for the given block size"
    | SizeExceeded            // "Requested size exceeds block size"
    | OutOfBlocks             // "No free blocks available"
    // ecs.cpp
    | RegistryNotSet          // "ComponentFactoryRegistry is not set"
    | PoolFactoryNotSet       // "PoolFactory is not set"
    | AllocatorFactoryNotSet  // "AllocatorFactory is not set"
    | NotReady                // "ECSWorld is not ready"
    | EntityOutOfRange        // "Entity index out of range"
    | ComponentOutOfRange     // "Component ID out of range"
    | StorageMissing          // "Component pool or allocator not initialized"
    | DuplicateComponent      // the entity already holds the component
    | StaleEntity             // the entity is not live: a generation its index was not last issued with, or destroyed

  /** Outcome of an operation that yields a value. */
  datatype Result<+T> = Success(value: T) | Failure(error: Error)

  /** Outcome of an operation that returns nothing (a C++ `void`). */
  datatype Outcome = Pass | Fail(error: Error)
}
