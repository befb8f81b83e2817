/**
 * The state of an `ECSWorld` (include/ecs.h, src/ecs.cpp) as a value, and
 * every world operation as a function of it.
 *
 * The state is the one ecs.cpp works on: the three configuration slots, the
 * ready flag, the stack of destroyed entities with the next fresh index, one
 * pool and one allocator per component id, and the three maps
 * entity -> component ids, component id -> entities and
 * (entity, component id) -> block. The world owns each allocator through a
 * `unique_ptr`, so an allocator is held here as its value.
 */
module WorldSpec {
  import opened Outcomes
  import opened Ids
  import opened FixedBlockPools
  import opened FixedBlockAllocators
  import opened ComponentFactories

  datatype WorldState = WorldState(
    factories: Option<seq<ComponentFactory>>,   // componentFactoryRegistry_
    poolFactorySet: bool,                       // poolFactory_ != nullptr
    allocatorFactorySet: bool,                  // allocatorFactory_ != nullptr
    ready: bool,                                // isReady_
    freeEntities: seq<Entity>,                  // freeEntityIDs_, top of the stack last
    nextEntityIndex: nat,                       // nextEntityIndex_
    generations: seq<nat>,                      // the generation each index was last issued with
    pools: seq<FixedBlockPool?>,                // componentPools_
    allocators: seq<Option<AllocatorState>>,    // componentAllocators_
    entityToComponents: map<Entity, set<nat>>,  // entityToComponents_
    componentToEntities: map<nat, set<Entity>>, // componentToEntities_
    data: map<(Entity, nat), nat>)              // entityComponentToData_
  {

    /** The component ids an entity holds (none when it has no entry). */
    function Comps(e: Entity): set<nat>
    {
      if e in entityToComponents then entityToComponents[e] else {}
    }

    /** The entities holding a component id (none when it has no entry). */
    function Holders(c: nat): set<Entity>
    {
      if c in componentToEntities then componentToEntities[c] else {}
    }

    /** The data entry `p` names a block in use in its component's allocator. */
    ghost predicate OwnsBlock(p: (Entity, nat))
      requires p in data
    {
      && p.0.index < nextEntityIndex
      && p.1 < |pools| && p.1 < |allocators| && pools[p.1] != null && allocators[p.1].Some?
      && data[p] < allocators[p.1].value.blockCount
      && data[p] !in allocators[p.1].value.freeList
    }

    /** Only a world whose factory registry is set can be ready. */
    ghost predicate ConfigOk()
    {
      ready ==> factories.Some?
    }

    /** One allocator slot per pool slot; every allocator is valid and carves its pool. */
    ghost predicate StorageOk()
    {
      && |pools| == |allocators|
      && (forall c :: 0 <= c < |allocators| && allocators[c].Some? ==> allocators[c].value.Valid())
      && (forall c :: 0 <= c < |allocators| && allocators[c].Some? && pools[c] != null ==>
            allocators[c].value.blockSize > 0
            && allocators[c].value.poolStart == pools[c].address
            && allocators[c].value.blockCount == pools[c].size / allocators[c].value.blockSize)
    }

    /** Only indices already handed out are waiting for reuse, and each handed-out index has its generation recorded. */
    ghost predicate FreeEntitiesOk()
    {
      && |generations| == nextEntityIndex
      && forall k :: 0 <= k < |freeEntities| ==> freeEntities[k].index < nextEntityIndex
    }

    /** The two membership maps are mutual inverses, and the data map's keys are exactly their pairs. */
    ghost predicate MapsAgree()
    {
      && (forall e: Entity, c: nat :: c in Comps(e) <==> (e, c) in data)
      && (forall e: Entity, c: nat :: e in Holders(c) <==> (e, c) in data)
    }

    /** Every pair owns a block in use. */
    ghost predicate BlocksOwned()
    {
      forall p :: p in data ==> OwnsBlock(p)
    }

    /** No two pairs of one component share a block. */
    ghost predicate BlocksUnshared()
    {
      forall p, q :: p in data && q in data && p.1 == q.1 && p != q ==> data[p] != data[q]
    }

    /** The world's invariant. */
    ghost predicate Inv()
    {
      ConfigOk() && StorageOk() && FreeEntitiesOk() && MapsAgree() && BlocksOwned() && BlocksUnshared()
    }

    /** No block leaks: every block of a component's allocator is either free or held by exactly one entity. */
    ghost predicate BlocksAccounted()
    {
      forall c :: 0 <= c < |allocators| && allocators[c].Some? ==>
        |allocators[c].value.freeList| + |Holders(c)| == allocators[c].value.blockCount
    }

    function SetComponentFactoryRegistry(registry: seq<ComponentFactory>): WorldState
    {
      this.(factories := Some(registry))
    }

    function SetPoolFactory(): WorldState
    {
      this.(poolFactorySet := true)
    }

    function SetAllocatorFactory(): WorldState
    {
      this.(allocatorFactorySet := true)
    }

    /**
     * `IsReady()`: checks the factory registry, the pool factory and the
     * allocator factory in that order. A missing one throws before the flag
     * is written, so only success records anything: the flag becomes true.
     */
    function IsReady(): (Result<bool>, WorldState)
    {
      if factories.None? then (Failure(RegistryNotSet), this)
      else if !poolFactorySet then (Failure(PoolFactoryNotSet), this)
      else if !allocatorFactorySet then (Failure(AllocatorFactoryNotSet), this)
      else (Success(true), this.(ready := true))
    }

    /**
     * Stands in for `CreateWorld`, whose body is not part of this model:
     * the pools and allocators for component ids `0 .. |pools| - 1`.
     */
    function InstallStorage(newPools: seq<FixedBlockPool?>, newAllocators: seq<Option<AllocatorState>>): WorldState
    {
      this.(pools := newPools, allocators := newAllocators)
    }

    /**
     * `CreateEntity()`: reuses the last destroyed entity's index one
     * generation up, or takes a fresh index at the default generation. The
     * generation handed out is recorded for the index.
     */
    function CreateEntity(): (Result<Entity>, WorldState)
    {
      if !ready then (Failure(NotReady), this)
      else if freeEntities != [] then
        var e := freeEntities[|freeEntities| - 1];
        (Success(ID(e.index, e.generation + 1)),
         this.(freeEntities := freeEntities[..|freeEntities| - 1],
               generations := if e.index < |generations| then generations[e.index := e.generation + 1] else generations))
      else
        (Success(ID(nextEntityIndex, DefaultGeneration)),
         this.(nextEntityIndex := nextEntityIndex + 1, generations := generations + [DefaultGeneration]))
    }

    /** Removes the pair `(e, c)`: `e` leaves `c`'s holders, its block goes back to `c`'s allocator, the data entry goes. */
    function Detach(e: Entity, c: nat): WorldState
      requires c < |allocators| && allocators[c].Some? && (e, c) in data
    {
      this.(componentToEntities := componentToEntities[c := Holders(c) - {e}],
            allocators := allocators[c := Some(allocators[c].value.Free(Some(data[(e, c)])))],
            data := data - {(e, c)})
    }

    /** `Detach(e, c)` done for every `c` of a set of component ids. */
    function DetachAll(e: Entity, cs: set<nat>): WorldState
    {
      this.(componentToEntities :=
              map c | c in componentToEntities :: if c in cs then componentToEntities[c] - {e} else componentToEntities[c],
            allocators :=
              seq(|allocators|, c requires 0 <= c < |allocators| =>
                if c in cs && allocators[c].Some? && (e, c) in data
                then Some(allocators[c].value.Free(Some(data[(e, c)])))
                else allocators[c]),
            data := map p | p in data && !(p.0 == e && p.1 in cs) :: data[p])
    }

    /**
     * `DestroyEntity(e)`: refuses an index never handed out; otherwise pushes
     * `e` on the free stack, detaches every component `e` holds and drops its
     * entry. There is no check that `e` is alive or of the current generation.
     */
    function DestroyEntity(e: Entity): (Outcome, WorldState)
    {
      if !ready then (Fail(NotReady), this)
      else if e.index >= nextEntityIndex then (Fail(EntityOutOfRange), this)
      else
        (Pass, DetachAll(e, Comps(e)).(freeEntities := freeEntities + [e],
                                       entityToComponents := entityToComponents - {e}))
    }

    /** The checks `AddComponent`, `RemoveComponent`, `HasComponent` and `GetComponent` start with. */
    function CheckPair(e: Entity, c: nat): Outcome
    {
      if !ready then Fail(NotReady)
      else if e.index >= nextEntityIndex then Fail(EntityOutOfRange)
      else if c >= |pools| then Fail(ComponentOutOfRange)
      else Pass
    }

    /** Allocates a block for `c` with the size its factory asks for and records `(e, c)` in all three maps. */
    function Attach(e: Entity, c: nat): (Outcome, WorldState)
      requires factories.Some? && c < |allocators| && allocators[c].Some?
    {
      if c >= |factories.value| then (Fail(EntryOutOfRange), this)
      else
        var (r, a) := allocators[c].value.Malloc(factories.value[c].GetProductSize());
        if r.Failure? then (Fail(r.error), this)
        else (Pass, Record(e, c, r.value, a))
    }

    /** Records the pair `(e, c)` holding `block` in all three maps, with `c`'s allocator now `a`. */
    function Record(e: Entity, c: nat, block: nat, a: AllocatorState): WorldState
      requires c < |allocators|
    {
      this.(entityToComponents := entityToComponents[e := Comps(e) + {c}],
            componentToEntities := componentToEntities[c := Holders(c) + {e}],
            data := data[(e, c) := block],
            allocators := allocators[c := Some(a)])
    }

    /**
     * `AddComponent` exactly as ecs.cpp has it: the entity is checked by its
     * index alone, and there is no check that `e` already holds `c`.
     */
    function AddComponentAsWritten(e: Entity, c: nat): (Outcome, WorldState)
      requires Inv()
    {
      if CheckPair(e, c).Fail? then (CheckPair(e, c), this)
      else if pools[c] == null || allocators[c].None? then (Fail(StorageMissing), this)
      else Attach(e, c)
    }

    /**
     * `AddComponent` as the unit test expects it to behave: an entity that is
     * not live is refused, that is one whose generation is not the one its
     * index was last issued with or one destroyed and waiting for reuse, and
     * so is a component the entity already holds.
     */
    function AddComponent(e: Entity, c: nat): (Outcome, WorldState)
      requires Inv()
    {
      if CheckPair(e, c).Fail? then (CheckPair(e, c), this)
      else if e.generation != generations[e.index] || e in freeEntities then (Fail(StaleEntity), this)
      else if pools[c] == null || allocators[c].None? then (Fail(StorageMissing), this)
      else if c in Comps(e) then (Fail(DuplicateComponent), this)
      else Attach(e, c)
    }

    /** `RemoveComponent(e, c)`: nothing when `e` lacks `c`; otherwise detaches the pair and drops `c` from `e`'s set. */
    function RemoveComponent(e: Entity, c: nat): (Outcome, WorldState)
      requires Inv()
    {
      if CheckPair(e, c).Fail? then (CheckPair(e, c), this)
      else if c !in Comps(e) then (Pass, this)
      else (Pass, Detach(e, c).(entityToComponents := entityToComponents[e := Comps(e) - {c}]))
    }

    function HasComponent(e: Entity, c: nat): Result<bool>
    {
      if CheckPair(e, c).Fail? then Failure(CheckPair(e, c).error) else Success(c in Comps(e))
    }

    /** `GetComponent(e, c)`: the block of the pair, or null when the pair is absent. */
    function GetComponent(e: Entity, c: nat): Result<Option<nat>>
    {
      if CheckPair(e, c).Fail? then Failure(CheckPair(e, c).error)
      else if (e, c) in data then Success(Some(data[(e, c)]))
      else Success(None)
    }

    /** `View(c)`: the entities holding `c`, empty when none does. */
    function View(c: nat): Result<set<Entity>>
    {
      if !ready then Failure(NotReady)
      else if c >= |pools| then Failure(ComponentOutOfRange)
      else Success(Holders(c))
    }
  }

  /** A newly constructed world: nothing configured, not ready, no entities, no storage. */
  function NewWorld(): WorldState
  {
    WorldState(None, false, false, false, [], 0, [], [], [], map[], map[], map[])
  }
}
