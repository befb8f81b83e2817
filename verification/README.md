# riaecs object storage, modelled in Dafny

A model of the object-storage layer of riaecs, a C++ entity-component-system
library, with proofs of what its operations promise. It covers five parts.

- **The generational container** `Container<T>` (`container.h`). It has
  slots holding optional objects, a generation per slot and a stack of free
  indices. An `ID` names a slot by index and is accepted only while its
  generation matches.
- **The fixed-block pool and allocator** (`mem_alloc_fixed_block`). The
  allocator cuts a pool into `poolSize / blockSize` blocks. It keeps the free
  ones on a LIFO list: `Malloc` takes the head and `Free` pushes one back.
  - Blocks are named by number: block `i` starts at `poolStart + i * blockSize`.
- **The ECS world** (`ECSWorld`, `ecs.h` / `ecs.cpp`):
  - readiness;
  - entity creation with index reuse and generation bump;
  - destruction;
  - adding and removing components;
  - the three bookkeeping maps: entity → component ids, component id →
    entities, and (entity, component id) → block, fed by one allocator per
    component id.
- **The append-only registries** `Registry<T>` and `FactoryRegistry<F>`.
- **The `ID` value type** and the message builder `CreateMessage`.

Each imperative part has the same two layers:
- A value datatype with its operations as functions: `Slots`,
  `AllocatorState`, `WorldState`.
- A class whose fields are the C++ object's fields: `Container`,
  `FixedBlockAllocator`, `ECSWorld`. Every method is proved to move the
  object exactly as the matching function says.

The properties are lemmas over the functions. They live in
`container_properties.dfy`, `allocator_properties.dfy`,
`world_invariants.dfy` and `world_properties.dfy`.

The world's invariant (`WorldSpec.WorldState.Inv`) has these parts:
- the two membership maps are mutual inverses;
- the data map's keys are exactly their pairs;
- every pair owns a distinct block that its component's allocator has handed
  out;
- every allocator is valid and carves its own pool.

A second predicate, `BlocksAccounted`, says no block leaks. For each
allocator, free blocks plus holders equals the block count.

Every `NotifyError` call site ends in a throw. In the model it is the
`Failure`/`Fail` arm of a `Result`/`Outcome`, naming the check that fired
(module `Outcomes`). All checks run before the first mutation, so a failing
call leaves the state as it was. The model states this for every operation.

The model follows the code, including the checks it does not make:
- `DestroyEntity` checks neither the entity's generation nor whether it was
  destroyed already, and no flag records which entities exist.
- `Container::Add` resets a reused slot's generation.

Lemmas show what each gap allows. Two checks of `AddComponent` are expected
by the unit test and missing from the code: the entity's generation
(`ecs_test.cpp` line 89) and a component the entity already holds (line
122). Both are findings below. `WorldSpec.WorldState.AddComponentAsWritten`
is the code as written, and `ECSWorld.AddComponent` has both checks; its
liveness check also refuses an entity destroyed and not yet reissued.

## Model

| member | source | states |
|---|---|---|
| `Ids.ID.Equals` | riaecs/riaecs/include/types/id.h:23-26 | `operator==` compares index and generation, which holds exactly when the two IDs are the same value |
| `Ids.GettersReturnFields` | riaecs/riaecs/include/types/id.h:16-21 | the getters return the index and generation the constructor was given |
| `Ids.EqualIdsHashEqually` | riaecs/riaecs/include/types/id.h:36-39 | the hash reads only the two fields, so equal IDs hash equally (the `size_t` hash is a parameter) |
| `Utilities.CreateMessage` | riaecs/riaecs/src/utilities.cpp:6-13 | the loop builds each line followed by a newline, in order, and the length is the sum of the line lengths plus one per line |
| `Utilities.MessageOfNoLines` | riaecs/riaecs/src/utilities.cpp:8-12 | no lines give the empty string |
| `Utilities.MessageLength` | riaecs/riaecs/src/utilities.cpp:9-10 | the message's length is the sum of `len(line) + 1` over the lines |
| `Utilities.MessageAppend` | riaecs/riaecs/src/utilities.cpp:9-10 | the message of two lists one after the other is the concatenation of their messages |
| `Utilities.MessageLineAt` | riaecs/riaecs/src/utilities.cpp:9-10 | line `k` appears in the message right after the earlier lines and is followed by a newline |
| `Utilities.NatDecimal` | riaecs/riaecs/src/utilities.cpp:21 | the decimal rendering of a number is never empty, is `"0"` for zero and otherwise has no leading zero |
| `Utilities.NatDecimalRoundTrip` | riaecs/riaecs/src/utilities.cpp:21 | decimal digits of a natural number read back as that number and do not start with a minus sign |
| `Utilities.DecimalRoundTrip` | riaecs/riaecs/src/utilities.cpp:21 | `std::to_string` of an `int` line number reads back as that number, negative numbers included |
| `Utilities.CreateMessageAt` | riaecs/riaecs/src/utilities.cpp:15-24 | the located overload is the message of the lines with one more line `file : line : function` |
| `Registries.Registry.constructor` | riaecs/riaecs/include/registry.h:25-55 | a new registry is empty |
| `Registries.Registry.Add` | riaecs/riaecs/include/registry.h:25-36 | null is refused and nothing changes; otherwise the entry is appended and its id is the count before the call |
| `Registries.Registry.Get` | riaecs/riaecs/include/registry.h:38-49 | succeeds exactly for ids below the count and gives the entry added under that id |
| `Registries.Registry.GetCount` | riaecs/riaecs/include/registry.h:51-55 | the number of entries added |
| `FactoryRegistries.FactoryRegistry.constructor` | riaecs/riaecs/include/factory_registry.h:25-55 | a new registry is empty |
| `FactoryRegistries.FactoryRegistry.Add` | riaecs/riaecs/include/factory_registry.h:25-36 | null is refused; otherwise the factory is appended and its id is the previous count |
| `FactoryRegistries.FactoryRegistry.Get` | riaecs/riaecs/include/factory_registry.h:38-49 | succeeds exactly for ids below the count and gives the very factory whose `Add` produced the id |
| `FactoryRegistries.FactoryRegistry.GetCount` | riaecs/riaecs/include/factory_registry.h:51-55 | the number of factories added |
| `FactoryRegistries.TwoFactories` | riaecs/riaecs_unit_test/tests/factory_registry_test.cpp:26-52 | two adds to a new registry give ids 0 and 1 with counts 1 and 2, each id gets its own factory back, and id 2 is refused |
| `Containers.Container.constructor` | riaecs/riaecs/include/container.h:33-42 | a new container has no slots and no free index |
| `Containers.Container.Create` | riaecs/riaecs/include/container.h:33-42 | the container ends exactly as `Slots.Create` says, keeping its vectors parallel |
| `Containers.Container.Release` | riaecs/riaecs/include/container.h:44-61 | the container ends exactly as `Slots.Release` says |
| `Containers.Container.Add` | riaecs/riaecs/include/container.h:63-87 | the container ends exactly as `Slots.Add` says, and the free stack stays inside the table |
| `Containers.Container.Erase` | riaecs/riaecs/include/container.h:89-115 | the container ends exactly as `Slots.Erase` says; a free stack inside the table stays inside it |
| `Containers.Container.Get` | riaecs/riaecs/include/container.h:117-131 | the result is `Slots.Get`, and it succeeds exactly when the handle names a live object |
| `Containers.Container.Set` | riaecs/riaecs/include/container.h:133-144 | the container ends exactly as `Slots.Set` says |
| `Containers.Container.GetGeneration` | riaecs/riaecs/include/container.h:146-154 | succeeds exactly for an index inside the table, and then gives that slot's generation |
| `Containers.Container.Contains` | riaecs/riaecs/include/container.h:156-164 | refuses an out-of-range index; otherwise true exactly when the handle names a live object |
| `Containers.Container.GetCount` | riaecs/riaecs/include/container.h:166-170 | the number of slots |
| `Containers.Container.Clear` | riaecs/riaecs/include/container.h:172-177 | the container ends exactly as `Slots.Clear` says |
| `ContainerProperties.MutatorsKeepShape` | riaecs/riaecs/include/container.h:33-177 | every mutator keeps the vectors parallel; all but `Clear` keep every free index inside the table |
| `ContainerProperties.CreateMakesEmptySlots` | riaecs/riaecs/include/container.h:33-42 | on a non-empty table `Create` fails and changes nothing; otherwise it makes `count` empty slots at the default generation |
| `ContainerProperties.CreateThenCount` | riaecs/riaecs_unit_test/tests/container_test.cpp:6-11 | test scenario: `Create(count)` on a new container passes, and `GetCount()` then reports `count` |
| `ContainerProperties.AddAppendsOrReusesLastFreed` | riaecs/riaecs/include/container.h:63-87 | with no free index, `Add` appends at the old count; otherwise it takes the index freed last and keeps the count. The slot gets the default generation and no other slot changes |
| `ContainerProperties.AddThenGet` | riaecs/riaecs/include/container.h:63-131 | the handle `Add` returns names the object just stored, for both `Get` and `Contains` |
| `ContainerProperties.EraseVacates` | riaecs/riaecs/include/container.h:89-115 | `Erase` succeeds exactly on a live handle. It then returns the object, empties the slot, raises the generation by exactly one and pushes the index; on failure nothing changes |
| `ContainerProperties.ReleaseIsEraseWithoutFreeing` | riaecs/riaecs/include/container.h:44-61 | `Release` has the checks, result and slot changes of `Erase`, except that the free stack is untouched; the handle is dead afterwards |
| `ContainerProperties.ReleasedIndexNotReused` | riaecs/riaecs/include/container.h:44-87 | an index vacated by `Release` is not handed out by the next `Add` |
| `ContainerProperties.EraseThenAddReusesIndex` | riaecs/riaecs/include/container.h:76-115 | after `Erase`, the next `Add` reuses the index at the default generation without growing the table |
| `ContainerProperties.SetThenGet` | riaecs/riaecs/include/container.h:133-144 | `Set` needs range and generation only. It replaces the object, keeps the generations and free stack, and `Get` then returns the new object |
| `ContainerProperties.ContainsIsHolds` | riaecs/riaecs/include/container.h:156-164 | `Contains` fails exactly out of range; otherwise it equals "occupied at this generation", which is when `Get` succeeds |
| `ContainerProperties.ClearKeepsFreeStack` | riaecs/riaecs/include/container.h:172-177 | `Clear` leaves no slot but keeps the free stack |
| `ContainerProperties.StaleIdValidAgainAfterReuse` | riaecs/riaecs/include/container.h:82 | as written: once a handle of the default generation is erased and its slot reused, the same handle names the new object |
| `ContainerProperties.ReuseInvalidatesStaleId` | riaecs/riaecs/include/container.h:76-85 | when reuse keeps the bumped generation, the new handle's generation is one above the old one and the old handle stays dead |
| `ContainerProperties.ClearStrandsFreeIndices` | riaecs/riaecs/include/container.h:172-177 | as written: after `Clear` with a non-empty free stack, the index `Add` would take lies outside the empty table |
| `ContainerProperties.ClearAllThenAddAppendsAtZero` | riaecs/riaecs/include/container.h:172-177 | a `Clear` that also empties the free stack leaves a consistent table where `Add` starts at index 0 |
| `FixedBlockPools.FixedBlockPool.constructor` | riaecs/mem_alloc_fixed_block/src/pool.cpp:6-10 | the pool owns a new buffer of exactly `size` bytes, and its size is fixed |
| `FixedBlockPools.FixedBlockPool.GetPool` | riaecs/mem_alloc_fixed_block/include/pool.h:25 | returns the owned buffer, of `size` bytes |
| `FixedBlockPools.FixedBlockPool.GetSize` | riaecs/mem_alloc_fixed_block/include/pool.h:26 | returns the size given at construction |
| `FixedBlockPools.CreatePool` | riaecs/mem_alloc_fixed_block/src/pool.cpp:12-15 | the factory returns a new pool of the requested size with its own buffer |
| `FixedBlockAllocators.EnsureMinBlockSize` | riaecs/mem_alloc_fixed_block/src/allocator.cpp:64-71 | fails exactly on 0; otherwise gives `max(size, 8)` |
| `FixedBlockAllocators.FixedBlockAllocator.constructor` | riaecs/mem_alloc_fixed_block/src/allocator.cpp:6-26 | the loop visits every whole block, and the result is `Initial`: the highest block at the head and block 0 last (for block sizes of 8 or more; see Left out) |
| `FixedBlockAllocators.FixedBlockAllocator.Construct` | riaecs/mem_alloc_fixed_block/src/allocator.cpp:9-17 | construction fails exactly when `Initial` does: zero block size first, then a pool with no whole block |
| `FixedBlockAllocators.FixedBlockAllocator.Malloc` | riaecs/mem_alloc_fixed_block/src/allocator.cpp:33-46 | the allocator ends exactly as `AllocatorState.Malloc` says |
| `FixedBlockAllocators.FixedBlockAllocator.Free` | riaecs/mem_alloc_fixed_block/src/allocator.cpp:48-62 | the allocator ends exactly as `AllocatorState.Free` says |
| `AllocatorProperties.CountdownLists` | riaecs/mem_alloc_fixed_block/src/allocator.cpp:20-25 | the constructor's list has one entry per block, position `k` holding block `count - 1 - k` |
| `AllocatorProperties.CountdownIsEveryBlockOnce` | riaecs/mem_alloc_fixed_block/src/allocator.cpp:20-25 | the constructor's list holds every block below the count, each once |
| `AllocatorProperties.ConstructionFreesEveryBlock` | riaecs/mem_alloc_fixed_block/src/allocator.cpp:6-26 | a zero block size fails, then a pool smaller than a block fails; otherwise it succeeds with `poolSize / blockSize` blocks. With a block size of at least 8 the allocator is valid with every block free once, highest first |
| `AllocatorProperties.WholeBlocksFit` | riaecs/mem_alloc_fixed_block/src/allocator.cpp:14 | `n` blocks fit in the pool for every `n` up to `poolSize / blockSize` |
| `AllocatorProperties.BlockInsidePool` | riaecs/mem_alloc_fixed_block/src/allocator.cpp:22 | every block number below the count names bytes wholly inside the pool |
| `AllocatorProperties.DistinctBlocksDoNotOverlap` | riaecs/mem_alloc_fixed_block/src/allocator.cpp:22 | two different blocks occupy disjoint byte ranges |
| `AllocatorProperties.MallocTakesHead` | riaecs/mem_alloc_fixed_block/src/allocator.cpp:33-46 | `Malloc` fails on a size above the block size, then on an empty list, changing nothing. Otherwise it returns the head, which leaves the list, and the allocator stays valid with the same block size |
| `AllocatorProperties.FreeInUseBlockKeepsValid` | riaecs/mem_alloc_fixed_block/src/allocator.cpp:48-62 | `Free(null)` changes nothing; freeing a block in use keeps the allocator valid with the block at the head |
| `AllocatorProperties.DoubleFreeListsBlockTwice` | riaecs/mem_alloc_fixed_block/src/allocator.cpp:48-62 | `Free` does not detect a double free: freeing a block already on the free list of a valid allocator leaves it no longer valid |
| `AllocatorProperties.FreeThenMallocReturnsIt` | riaecs/mem_alloc_fixed_block/src/allocator.cpp:38-58 | LIFO reuse: after `Free(p)` the next `Malloc` returns `p` and restores the allocator |
| `AllocatorProperties.MallocThenFreeRestores` | riaecs/mem_alloc_fixed_block/src/allocator.cpp:38-58 | freeing the block `Malloc` just returned restores the allocator exactly |
| `AllocatorProperties.MallocManyDrains` | riaecs/mem_alloc_fixed_block/src/allocator.cpp:38-45 | as many `Malloc` calls as there are free blocks all succeed and return the free list in order |
| `AllocatorProperties.FreshAllocatorServesExactlyBlockCount` | riaecs/mem_alloc_fixed_block/src/allocator.cpp:20-45 | a new allocator with blocks of at least 8 bytes serves exactly `blockCount` calls with pairwise distinct blocks inside the pool, and the next call fails with `OutOfBlocks` |
| `AllocatorProperties.SmallBlockLinksOverlap` | riaecs/mem_alloc_fixed_block/src/allocator.cpp:9-25 | as written: a block size from 1 to 7 is accepted, the allocator is not valid, and each block's 8-byte link reaches into the next block |
| `AllocatorProperties.SmallBlockLinkOverrunsPool` | riaecs/mem_alloc_fixed_block/src/allocator.cpp:20-25 | as written: a 4000-byte pool with 4-byte blocks makes 1000 blocks, each of the first 999 links overlaps the next block, and the link of block 999 ends past the pool |
| `AllocatorProperties.RoundedUpLinksInsidePool` | riaecs/mem_alloc_fixed_block/src/allocator.cpp:64-71 | with the block size first rounded up, the size is at least 8 and at least the request, the allocator is valid, and every block's link lies inside the pool |
| `AllocatorProperties.AllocateFreeAllocateAgain` | riaecs/mem_alloc_fixed_block_test/tests/fixed_block_test.cpp:16-62 | test scenario: two allocations give different blocks; after both are freed, a third allocation succeeds with the block freed last |
| `ComponentFactories.ComponentFactory.Create` | riaecs/riaecs/include/ecs.h:72-79 | null gives null; otherwise the component is built at the given block, and that block is returned |
| `WorldInvariants.NewWorldIsValid` | riaecs/riaecs/include/ecs.h:25-45 | a new world satisfies the invariant and the block accounting, and is not ready |
| `WorldInvariants.SetComponentFactoryRegistryKeepsInv` | riaecs/riaecs/src/ecs.cpp:6-9 | setting the registry keeps the invariant and the accounting |
| `WorldInvariants.SetPoolFactoryKeepsInv` | riaecs/riaecs/src/ecs.cpp:11-14 | setting the pool factory keeps the invariant and the accounting |
| `WorldInvariants.SetAllocatorFactoryKeepsInv` | riaecs/riaecs/src/ecs.cpp:16-19 | setting the allocator factory keeps the invariant and the accounting |
| `WorldInvariants.IsReadyKeepsInv` | riaecs/riaecs/src/ecs.cpp:21-46 | `IsReady` keeps the invariant and the accounting |
| `WorldInvariants.CreateEntityKeepsInv` | riaecs/riaecs/src/ecs.cpp:48-67 | `CreateEntity` keeps the invariant and the accounting |
| `WorldInvariants.InstallStorageKeepsInv` | riaecs/riaecs/include/ecs.h:35-36 | storage that carves its pools, with every block free, keeps the invariant and accounting of a world with nothing attached |
| `WorldInvariants.AttachKeepsInv` | riaecs/riaecs/src/ecs.cpp:113-129 | allocating and recording a pair keeps the invariant even for a pair already present; only a new pair keeps the accounting |
| `WorldInvariants.AddComponentKeepsInv` | riaecs/riaecs/src/ecs.cpp:99-130 | `AddComponent` with the duplicate check keeps the invariant and the accounting |
| `WorldInvariants.AddComponentAsWrittenKeepsInv` | riaecs/riaecs/src/ecs.cpp:99-130 | `AddComponent` as written keeps the invariant (not the accounting, see `DuplicateAddLeaksBlock`) |
| `WorldInvariants.RemoveComponentKeepsInv` | riaecs/riaecs/src/ecs.cpp:132-156 | `RemoveComponent` keeps the invariant and the accounting |
| `WorldInvariants.DestroyEntityKeepsInv` | riaecs/riaecs/src/ecs.cpp:69-97 | `DestroyEntity` keeps the invariant and the accounting |
| `Worlds.ECSWorld.constructor` | riaecs/riaecs/include/ecs.h:25-45 | a new world is the empty, unready world, and it is valid |
| `Worlds.ECSWorld.SetComponentFactoryRegistry` | riaecs/riaecs/src/ecs.cpp:6-9 | the world ends as `WorldState.SetComponentFactoryRegistry` says and stays valid |
| `Worlds.ECSWorld.SetPoolFactory` | riaecs/riaecs/src/ecs.cpp:11-14 | the world ends as `WorldState.SetPoolFactory` says and stays valid |
| `Worlds.ECSWorld.SetAllocatorFactory` | riaecs/riaecs/src/ecs.cpp:16-19 | the world ends as `WorldState.SetAllocatorFactory` says and stays valid |
| `Worlds.ECSWorld.IsReady` | riaecs/riaecs/src/ecs.cpp:21-46 | the result and new state are `WorldState.IsReady`; the world stays valid |
| `Worlds.ECSWorld.InstallStorage` | riaecs/riaecs/include/ecs.h:35-36 | the world gets the given pools and allocators and stays valid |
| `Worlds.ECSWorld.CreateEntity` | riaecs/riaecs/src/ecs.cpp:48-67 | the result and new state are `WorldState.CreateEntity`, which also records the generation the index is issued with; the world stays valid |
| `Worlds.ECSWorld.DestroyEntity` | riaecs/riaecs/src/ecs.cpp:69-97 | the result and new state are `WorldState.DestroyEntity`; the world stays valid |
| `Worlds.ECSWorld.DetachComponents` | riaecs/riaecs/src/ecs.cpp:83-92 | the loop detaches the entity from every component in the set: the world ends as `DetachAll` says |
| `Worlds.ECSWorld.Detach` | riaecs/riaecs/src/ecs.cpp:86-91 | one pair leaves the holder set and the data map, and its block goes back to the allocator |
| `Worlds.ECSWorld.CheckPair` | riaecs/riaecs/src/ecs.cpp:101-108 | the ready, entity-range and component-range checks pass exactly when all three hold |
| `Worlds.ECSWorld.AddComponent` | riaecs/riaecs/src/ecs.cpp:99-130 | the result and new state are `WorldState.AddComponent`, which refuses an entity that is not live (a stale generation, or destroyed and not yet reissued) and a duplicate; the world stays valid |
| `Worlds.ECSWorld.Attach` | riaecs/riaecs/src/ecs.cpp:113-129 | the factory lookup, `Malloc` and recording end as `WorldState.Attach` says; the world stays valid |
| `Worlds.ECSWorld.Record` | riaecs/riaecs/src/ecs.cpp:126-129 | the pair goes into all three maps with its block, and the allocator keeps its new state |
| `Worlds.ECSWorld.RemoveComponent` | riaecs/riaecs/src/ecs.cpp:132-156 | the result and new state are `WorldState.RemoveComponent`; the world stays valid |
| `Worlds.ECSWorld.HasComponent` | riaecs/riaecs/src/ecs.cpp:158-171 | the result is `WorldState.HasComponent`; after the checks it is true exactly when the pair has a data entry |
| `Worlds.ECSWorld.GetComponent` | riaecs/riaecs/src/ecs.cpp:173-189 | the result is `WorldState.GetComponent`; a block returned is below the block count and not on the free list |
| `Worlds.ECSWorld.View` | riaecs/riaecs/src/ecs.cpp:191-204 | the result is `WorldState.View`; it lists exactly the entities holding a data entry for the component |
| `WorldProperties.NotReadyRefusesEverything` | riaecs/riaecs/src/ecs.cpp:50-51 | until the world is ready, every entity and component operation fails with `NotReady` and changes nothing |
| `WorldProperties.IsReadyChecksInOrder` | riaecs/riaecs/src/ecs.cpp:21-46 | `IsReady` succeeds exactly when registry, pool factory and allocator factory are set. It reports the first missing one in that order, never answers false, and only success sets the flag |
| `WorldProperties.ConfiguredWorldBecomesReady` | riaecs/riaecs/src/ecs.cpp:6-46 | after the three setters, in any of the six orders, `IsReady` succeeds |
| `WorldProperties.CreateEntityReusesOrAppends` | riaecs/riaecs/src/ecs.cpp:53-66 | on a ready world, `CreateEntity` pops the last destroyed entity and returns its index one generation up. With none waiting it returns `(next, 0)` and advances the counter. The index is recorded with the generation returned, and no other index's record changes |
| `WorldProperties.DestroyThenCreateBumpsGeneration` | riaecs/riaecs/src/ecs.cpp:53-77 | the entity destroyed last comes back with its index and the next generation, and the free stack is as before |
| `WorldProperties.DestroyEntityRefusesUnknownIndex` | riaecs/riaecs/src/ecs.cpp:74-75 | an index never handed out is refused and nothing changes |
| `WorldProperties.DestroyEntityForgetsEntity` | riaecs/riaecs/src/ecs.cpp:77-96 | after `DestroyEntity` the entity has no component, `GetComponent` gives null, no view lists it, and it is on top of the free stack |
| `WorldProperties.DestroyEntityKeepsOtherPairs` | riaecs/riaecs/src/ecs.cpp:83-92 | every other entity's pairs and blocks are unchanged |
| `WorldProperties.DestroyEntityFreesBlocks` | riaecs/riaecs/src/ecs.cpp:88-91 | each block the entity held is pushed back on its component's allocator; other allocators are unchanged |
| `WorldProperties.AddComponentChecks` | riaecs/riaecs/src/ecs.cpp:101-121 | `AddComponent` fails, changing nothing, on the first unmet check, and succeeds exactly when every check holds (the liveness check included) and a block is free |
| `WorldProperties.AddComponentRecords` | riaecs/riaecs/src/ecs.cpp:117-129 | on success the pair holds the block that was at the head of the free list. Both membership maps gain the pair and nothing else changes |
| `WorldProperties.AddComponentAttaches` | riaecs/riaecs/src/ecs.cpp:117-129 | on success `HasComponent` is true, `GetComponent` gives the new block and `View` lists the entity |
| `WorldProperties.AddComponentRefusesDuplicate` | riaecs/riaecs_unit_test/tests/ecs_test.cpp:118-122 | a component a live entity (current generation, not destroyed) already holds is refused with `DuplicateComponent` and nothing changes |
| `WorldProperties.RemoveAbsentIsNoop` | riaecs/riaecs/src/ecs.cpp:143-145 | removing a component the entity does not hold succeeds and changes nothing |
| `WorldProperties.RemoveComponentDetaches` | riaecs/riaecs/src/ecs.cpp:143-155 | removing a held component drops the pair from all three maps and pushes its block back; nothing else changes |
| `WorldProperties.AddThenRemoveRestoresBlocks` | riaecs/riaecs/src/ecs.cpp:117-154 | add then remove of one pair restores the allocators, the data map, the free stack and the counter exactly |
| `WorldProperties.AddThenRemoveRestoresMemberships` | riaecs/riaecs/src/ecs.cpp:127-154 | add then remove of one pair restores what every entity holds and who holds every component |
| `WorldProperties.ViewAgreesWithHasComponent` | riaecs/riaecs/src/ecs.cpp:158-204 | `View` lists exactly the entities for which `HasComponent` is true |
| `WorldProperties.HasAgreesWithGet` | riaecs/riaecs/src/ecs.cpp:158-189 | `HasComponent` and `GetComponent` fail alike, and a pair is held exactly when it has a block |
| `WorldProperties.ComponentBlockInsidePool` | riaecs/riaecs/src/ecs.cpp:184-186 | a block `GetComponent` returns is in use, and its bytes lie wholly inside the component's pool |
| `WorldProperties.DuplicateAddLeaksBlock` | riaecs/riaecs/src/ecs.cpp:117-129 | as written: a second add of a held component succeeds. The first block is then neither free nor held by any pair, and the accounting breaks |
| `WorldProperties.ConfiguredWorld` | riaecs/riaecs_unit_test/tests/ecs_test.cpp:71-76 | a new world given the registry and both factories passes `IsReady()`: it is valid and ready, with nothing else changed |
| `WorldProperties.ReadyWorld` | riaecs/riaecs_unit_test/tests/ecs_test.cpp:71-78 | the test's configuration steps, with a single component id whose pool holds eight 8-byte blocks (the test registers two types of at most ten): the world is valid and ready, all eight blocks are free, and no entity or pair exists |
| `WorldProperties.EntityHoldingComponent` | riaecs/riaecs_unit_test/tests/ecs_test.cpp:80-85 | through the world's own methods: the first entity created is index 0 at the default generation, and adding component 0 to it succeeds with a block left free |
| `WorldProperties.DuplicateAddScenario` | riaecs/riaecs_unit_test/tests/ecs_test.cpp:113-122 | reached through the world's own methods: after one add, a second add of the same component passes as written and breaks the block accounting, while the corrected world refuses it with `DuplicateComponent` and stays unchanged |
| `WorldProperties.AddComponentIgnoresGeneration` | riaecs/riaecs/src/ecs.cpp:101-111 | as written, the checks read only the entity's index: any generation of an index meets the same checks and gets the same outcome |
| `WorldProperties.AddComponentAsWrittenAcceptsStaleEntity` | riaecs/riaecs/src/ecs.cpp:101-129 | as written: while the live entity of an index holds a component, an entity of that index and another generation is still given the component when a block is free, and both pairs are recorded |
| `WorldProperties.AddComponentRefusesStaleEntity` | riaecs/riaecs_unit_test/tests/ecs_test.cpp:88-89 | with the liveness check, an entity whose generation is not the one its index was last issued with, or which was destroyed and waits for reuse, is refused with `StaleEntity` and nothing changes |
| `WorldProperties.DestroyedEntityRefused` | riaecs/riaecs/src/ecs.cpp:69-111 | after `DestroyEntity(e)`, and before the index is reissued, the corrected `AddComponent(e, c)` is refused with `StaleEntity` and changes nothing, although the checks ecs.cpp makes still pass |
| `WorldProperties.StaleAddScenario` | riaecs/riaecs_unit_test/tests/ecs_test.cpp:80-89 | reached through the world's own methods: with entity 0 holding component 0, `Entity(0, 10)` is given the component as written, while the corrected world refuses it with `StaleEntity` and stays unchanged |
| `WorldProperties.DoubleDestroyReissuesEntity` | riaecs/riaecs/src/ecs.cpp:74-77 | nothing stops a second `DestroyEntity` of the same entity, and the next two `CreateEntity` calls then return the same entity |

## Left out

- Locking. The `shared_mutex` in the container, the registries and the world,
  and the `ReadOnlyObject` lock-holding handle, are left out. Every operation
  is modelled as sequential and returns plain values.
- Logging. The console and message-box output of `NotifyError` and the `Log`
  class are left out; `NotifyError` is only its throw, a `Failure`/`Fail`
  value.
- Raw memory. Placement `new`, destructor calls, `reinterpret_cast` and the
  bytes of blocks are left out. A block is its number, a component its
  block, and the free-list link is the free-list sequence.
- `ComponentFactory::Destroy` (include/ecs.h:81-88): it only runs a
  destructor on bytes, which are not modelled. `DestroyEntity` never calls
  it.
- `ComponentFactories.ComponentFactory.Create`: its "component is
  constructed" half is not modelled, because bytes are not.
- Hashing. The bit mixing of `std::hash<size_t>` is implementation-defined
  and is a parameter. The hash of an (entity, component id) pair is not
  modelled; the maps are Dafny maps.
- `SystemList`, `SystemLoop` and the command queue are declared without
  bodies.
- `CreateWorld`, `DestroyWorld`, `SetComponentMaxCountRegistry`,
  `RegisterEntity` and `GetRegisteredEntity` have no bodies in the source.
  - `InstallStorage` stands in for `CreateWorld`. It takes pools and
    allocators as given, requiring that each allocator carves its pool and
    that nothing is attached yet.
- The process-wide static registries are left out; registries are passed in
  explicitly.
- `size_t` wrap-around. Counters, generations and indices are unbounded
  `nat`. A generation incremented 2^64 times would wrap in C++, and the
  model does not show this.
- Null setter arguments. `SetPoolFactory` and `SetAllocatorFactory` are
  modelled as "now set", since the factories' products come in through
  `InstallStorage`. The registry setter always stores a registry.
- Checks that cannot fire are left out:
  - the registries' "no entry" check, since `Add` refuses null;
  - `AddComponent`'s `!componentPtr` check, since `Malloc` fails by throwing;
  - `IsReady`'s `isReady_ = false` after a throw, which is dead code.
- Allocators as values. The world owns each allocator through a
  `unique_ptr`, so the world holds allocator values; aliasing between
  allocators is impossible and not modelled.
- `Containers.Container.Add`: requires every free index to lie inside the
  table. After `Clear` with a non-empty free stack the source would write
  out of bounds, which `ClearStrandsFreeIndices` shows.
- `Worlds.ECSWorld.InstallStorage`: requires what `CreateWorld` would
  establish. `CreateWorld`'s body is not part of this model.
- Checks `DestroyEntity` does not make (ecs.cpp:69-97): it reads only the
  entity's index, so neither a stale generation nor a second destroy of the
  same entity is refused, and there are no entity-existence flags.
  `DoubleDestroyReissuesEntity` shows the consequence.
- `FixedBlockAllocators.FixedBlockAllocator.constructor`: for a block size
  from 1 to 7 its contract still gives the countdown free list, which is the
  order the loop visits the blocks, but not what memory then holds: the
  8-byte links overlap their neighbours, and the chain `Malloc` follows is
  corrupt (`SmallBlockLinksOverlap`). The model's free list is what memory
  holds only for block sizes of 8 or more.
- `CONTAINER_DEFAULT_GENERATION` is not defined in any file of this model.
  `Containers.ContainerDefaultGeneration` takes it to be 0, the value of
  `ID_DEFAULT_GENERATION`. The container lemmas name it rather than its value.
- `Worlds.ECSWorld.generations` is a field ecs.h does not have: the record of
  the generation each index was last issued with, which the corrected
  generation check of `AddComponent` needs.

## Findings

| source | as written | input that shows it | evidently intended | confidence | as-written member | corrected member |
|---|---|---|---|---|---|---|
| riaecs/riaecs/include/container.h:82 | `Add` sets a reused slot's generation back to the default | erase a live handle `(i, d)` with `d` the default generation, then `Add`: the new handle is `(i, d)` again and the stale handle names the new object | keep the generation `Erase` raised, so stale handles stay invalid | high, not executed | `ContainerProperties.StaleIdValidAgainAfterReuse` | `ContainerProperties.ReuseInvalidatesStaleId` |
| riaecs/riaecs/include/container.h:172-177 | `Clear` empties objects and generations but keeps the free stack | erase one slot, `Clear`, then `Add`: the index taken is outside the empty table and the write is out of bounds | clear the free stack too | high, not executed | `ContainerProperties.ClearStrandsFreeIndices` | `ContainerProperties.ClearAllThenAddAppendsAtZero` |
| riaecs/mem_alloc_fixed_block/src/allocator.cpp:9-25 | the constructor accepts any non-zero block size and writes an 8-byte link into every block | pool of 4000 bytes, block size 4: block `i`'s link covers bytes `4i` to `4i + 7` and so overlaps block `i + 1`, whose own link overwrites its upper half; the chain is corrupt from the second `Malloc` on, and the link of block 999 ends past the pool | round the block size up with `EnsureMinBlockSize`, as the unit test does | medium, not executed | `AllocatorProperties.SmallBlockLinkOverrunsPool` | `AllocatorProperties.RoundedUpLinksInsidePool` |
| riaecs/riaecs/src/ecs.cpp:99-130 | `AddComponent` has no check that the entity already holds the component | add component A to an entity twice: the second call takes a new block and overwrites the data entry, so the first block leaks | refuse the duplicate, as the unit test expects at ecs_test.cpp line 122 | high, not executed | `WorldProperties.DuplicateAddLeaksBlock` | `WorldProperties.AddComponentRefusesDuplicate` |
| riaecs/riaecs/src/ecs.cpp:101-111 | `AddComponent` checks the entity's index but never its generation | entity `(0, 0)` holds component A; `AddComponent(Entity(0, 10), A)` passes every check and is given a block | refuse an entity that is not live, a stale generation or a destroyed entity, as the unit test expects at ecs_test.cpp line 89 | high, not executed | `WorldProperties.AddComponentAsWrittenAcceptsStaleEntity` | `WorldProperties.AddComponentRefusesStaleEntity` |
