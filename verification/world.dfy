/**
 * `ECSWorld` (include/ecs.h, src/ecs.cpp) as a class whose fields are the
 * world's own. Every method is proved to move the world exactly as the
 * matching function of WorldSpec says, and to keep the invariant and the
 * block accounting of WorldInvariants.
 */
module Worlds {
  import opened Outcomes
  import opened Ids
  import opened FixedBlockPools
  import opened FixedBlockAllocators
  import opened ComponentFactories
  import opened WorldSpec
  import opened WorldInvariants

  /** The pair `(e, c)` is recorded, and `c` has an entry and an allocator. */
  ghost predicate Attached(s: WorldState, e: Entity, c: nat)
  {
    c in s.componentToEntities && c < |s.allocators| && s.allocators[c].Some? && (e, c) in s.data
  }

  /** Every component an entity holds is attached to it, in `s` and in any state sharing its maps and allocators. */
  lemma HeldComponentsAttached(s: WorldState, e: Entity, t: WorldState)
    requires s.Inv()
    requires t.componentToEntities == s.componentToEntities && t.allocators == s.allocators && t.data == s.data
    ensures forall c :: c in s.Comps(e) ==> Attached(t, e, c)
  {
    forall c | c in s.Comps(e)
      ensures Attached(t, e, c)
    {
      assert (e, c) in s.data && e in s.Holders(c);
      assert s.OwnsBlock((e, c));
    }
  }

  // One more component detached: the three fields `DetachAll` changes, one at a time.

  lemma DetachAllStepHolders(s: WorldState, e: Entity, done: set<nat>, c: nat)
    requires c !in done && c in s.componentToEntities
    ensures s.DetachAll(e, done).componentToEntities[c := s.componentToEntities[c] - {e}]
         == s.DetachAll(e, done + {c}).componentToEntities
  {
  }

  lemma DetachAllStepData(s: WorldState, e: Entity, done: set<nat>, c: nat)
    requires c !in done && (e, c) in s.data
    ensures s.DetachAll(e, done).data - {(e, c)} == s.DetachAll(e, done + {c}).data
  {
  }

  lemma DetachAllStepAllocators(s: WorldState, e: Entity, done: set<nat>, c: nat)
    requires c !in done && c < |s.allocators| && s.allocators[c].Some? && (e, c) in s.data
    ensures s.DetachAll(e, done).allocators[c := Some(s.allocators[c].value.Free(Some(s.data[(e, c)])))]
         == s.DetachAll(e, done + {c}).allocators
  {
  }

  /** `DetachAll` grows one component at a time, the way `DestroyEntity` walks an entity's set. */
  lemma DetachAllStep(s: WorldState, e: Entity, done: set<nat>, c: nat)
    requires c !in done && Attached(s, e, c)
    ensures Attached(s.DetachAll(e, done), e, c)
    ensures s.DetachAll(e, done).Detach(e, c) == s.DetachAll(e, done + {c})
  {
    DetachAllStepHolders(s, e, done, c);
    DetachAllStepData(s, e, done, c);
    DetachAllStepAllocators(s, e, done, c);
  }

  /** Detaching nothing changes nothing. */
  lemma DetachAllNone(s: WorldState, e: Entity)
    ensures s.DetachAll(e, {}) == s
  {
    var t := s.DetachAll(e, {});
    assert t.componentToEntities == s.componentToEntities;
    assert t.data == s.data;
    assert t.allocators == s.allocators;
  }

  class ECSWorld {
    var factories: Option<seq<ComponentFactory>>
    var poolFactorySet: bool
    var allocatorFactorySet: bool
    var isReady: bool
    var freeEntities: seq<Entity>
    var nextEntityIndex: nat
    /** Not a field of ecs.h: the generation each index was last issued with, which the generation check needs. */
    var generations: seq<nat>
    var pools: seq<FixedBlockPool?>
    var allocators: seq<Option<AllocatorState>>
    var entityToComponents: map<Entity, set<nat>>
    var componentToEntities: map<nat, set<Entity>>
    var entityComponentToData: map<(Entity, nat), nat>

    ghost function State(): WorldState
      reads this
    {
      WorldState(factories, poolFactorySet, allocatorFactorySet, isReady, freeEntities, nextEntityIndex,
                 generations, pools, allocators, entityToComponents, componentToEntities, entityComponentToData)
    }

    ghost predicate Valid()
      reads this
    {
      State().Inv() && State().BlocksAccounted()
    }

    constructor ()
      ensures Valid() && State() == NewWorld()
    {
      factories := None;
      poolFactorySet := false;
      allocatorFactorySet := false;
      isReady := false;
      freeEntities := [];
      nextEntityIndex := 0;
      generations := [];
      pools := [];
      allocators := [];
      entityToComponents := map[];
      componentToEntities := map[];
      entityComponentToData := map[];
      NewWorldIsValid();
    }

    method SetComponentFactoryRegistry(registry: seq<ComponentFactory>)
      requires Valid()
      modifies this
      ensures Valid() && State() == old(State()).SetComponentFactoryRegistry(registry)
    {
      SetComponentFactoryRegistryKeepsInv(State(), registry);
      factories := Some(registry);
    }

    method SetPoolFactory()
      requires Valid()
      modifies this
      ensures Valid() && State() == old(State()).SetPoolFactory()
    {
      SetPoolFactoryKeepsInv(State());
      poolFactorySet := true;
    }

    method SetAllocatorFactory()
      requires Valid()
      modifies this
      ensures Valid() && State() == old(State()).SetAllocatorFactory()
    {
      SetAllocatorFactoryKeepsInv(State());
      allocatorFactorySet := true;
    }

    method IsReady() returns (r: Result<bool>)
      requires Valid()
      modifies this
      ensures Valid() && (r, State()) == old(State()).IsReady()
    {
      IsReadyKeepsInv(State());
      if factories.None? {
        return Failure(RegistryNotSet);
      }
      if !poolFactorySet {
        return Failure(PoolFactoryNotSet);
      }
      if !allocatorFactorySet {
        return Failure(AllocatorFactoryNotSet);
      }
      isReady := true;
      return Success(isReady);
    }

    /** Gives the world the pools and allocators `CreateWorld` would build; nothing may be attached yet. */
    method InstallStorage(newPools: seq<FixedBlockPool?>, newAllocators: seq<Option<AllocatorState>>)
      requires Valid()
      requires entityComponentToData == map[] && entityToComponents == map[] && componentToEntities == map[]
      requires State().InstallStorage(newPools, newAllocators).StorageOk()
      requires forall c :: 0 <= c < |newAllocators| && newAllocators[c].Some? ==>
        |newAllocators[c].value.freeList| == newAllocators[c].value.blockCount
      modifies this
      ensures Valid() && State() == old(State()).InstallStorage(newPools, newAllocators)
    {
      InstallStorageKeepsInv(State(), newPools, newAllocators);
      pools := newPools;
      allocators := newAllocators;
    }

    method CreateEntity() returns (r: Result<Entity>)
      requires Valid()
      modifies this
      ensures Valid() && (r, State()) == old(State()).CreateEntity()
    {
      CreateEntityKeepsInv(State());
      if !isReady {
        return Failure(NotReady);
      }
      if freeEntities != [] {
        var entity := freeEntities[|freeEntities| - 1];
        freeEntities := freeEntities[..|freeEntities| - 1];
        if entity.index < |generations| {
          generations := generations[entity.index := entity.generation + 1];
        }
        return Success(ID(entity.index, entity.generation + 1));
      } else {
        var entity := ID(nextEntityIndex, DefaultGeneration);
        nextEntityIndex := nextEntityIndex + 1;
        generations := generations + [DefaultGeneration];
        return Success(entity);
      }
    }

    method DestroyEntity(entity: Entity) returns (r: Outcome)
      requires Valid()
      modifies this
      ensures Valid() && (r, State()) == old(State()).DestroyEntity(entity)
    {
      ghost var s0 := State();
      if !isReady {
        return Fail(NotReady);
      }
      if entity.index >= nextEntityIndex {
        return Fail(EntityOutOfRange);
      }
      freeEntities := freeEntities + [entity];
      if entity in entityToComponents {
        HeldComponentsAttached(s0, entity, State());
        DetachComponents(entity, entityToComponents[entity]);
        entityToComponents := entityToComponents - {entity};
      } else {
        DetachAllNone(s0, entity);
        assert entityToComponents - {entity} == entityToComponents;
      }
      assert State() == s0.DestroyEntity(entity).1;
      DestroyEntityKeepsInv(s0, entity);
      return Pass;
    }

    /** The loop of `DestroyEntity`: the pair of `entity` with each component in `components` is detached. */
    method DetachComponents(entity: Entity, components: set<nat>)
      requires forall c :: c in components ==> Attached(State(), entity, c)
      modifies this
      ensures State() == old(State()).DetachAll(entity, components)
    {
      ghost var s0 := State();
      var todo := components;
      ghost var done: set<nat> := {};
      DetachAllNone(s0, entity);
      while todo != {}
        invariant todo !! done && todo + done == components
        invariant State() == s0.DetachAll(entity, done)
        decreases todo
      {
        var c :| c in todo;
        DetachAllStep(s0, entity, done, c);
        Detach(entity, c);
        todo := todo - {c};
        done := done + {c};
      }
    }

    /** Takes `entity` out of the component's set, gives its block back and drops the data entry. */
    method Detach(entity: Entity, componentID: nat)
      requires Attached(State(), entity, componentID)
      modifies this
      ensures State() == old(State()).Detach(entity, componentID)
    {
      componentToEntities := componentToEntities[componentID := componentToEntities[componentID] - {entity}];
      var block := entityComponentToData[(entity, componentID)];
      allocators := allocators[componentID := Some(allocators[componentID].value.Free(Some(block)))];
      entityComponentToData := entityComponentToData - {(entity, componentID)};
    }

    /** The checks `AddComponent`, `RemoveComponent`, `HasComponent` and `GetComponent` start with. */
    method CheckPair(entity: Entity, componentID: nat) returns (r: Outcome)
      requires Valid()
      ensures r == State().CheckPair(entity, componentID)
      ensures r.Pass? <==> isReady && entity.index < nextEntityIndex && componentID < |pools|
    {
      if !isReady {
        return Fail(NotReady);
      }
      if entity.index >= nextEntityIndex {
        return Fail(EntityOutOfRange);
      }
      if componentID >= |pools| {
        return Fail(ComponentOutOfRange);
      }
      return Pass;
    }

    /** `AddComponent`, refusing an entity that is not live (a stale generation, or destroyed) and a component the entity already holds. */
    method AddComponent(entity: Entity, componentID: nat) returns (r: Outcome)
      requires Valid()
      modifies this
      ensures Valid() && (r, State()) == old(State()).AddComponent(entity, componentID)
    {
      r := CheckPair(entity, componentID);
      if r.Fail? {
        return;
      }
      if entity.generation != generations[entity.index] || entity in freeEntities {
        return Fail(StaleEntity);
      }
      if pools[componentID] == null || allocators[componentID].None? {
        return Fail(StorageMissing);
      }
      if entity in entityToComponents && componentID in entityToComponents[entity] {
        return Fail(DuplicateComponent);
      }
      r := Attach(entity, componentID);
    }

    /** Allocates the component's block and records the pair in all three maps. */
    method Attach(entity: Entity, componentID: nat) returns (r: Outcome)
      requires Valid() && State().CheckPair(entity, componentID).Pass?
      requires pools[componentID] != null && allocators[componentID].Some?
      requires componentID !in State().Comps(entity)
      modifies this
      ensures Valid() && (r, State()) == old(State()).Attach(entity, componentID)
    {
      ghost var s0 := State();
      var registry := factories.value;
      if componentID >= |registry| {
        AttachKeepsInv(s0, entity, componentID);
        return Fail(EntryOutOfRange);
      }
      var factory := registry[componentID];
      var (block, allocator) := allocators[componentID].value.Malloc(factory.GetProductSize());
      if block.Failure? {
        AttachKeepsInv(s0, entity, componentID);
        return Fail(block.error);
      }
      Record(entity, componentID, block.value, allocator);
      AttachKeepsInv(s0, entity, componentID);
      return Pass;
    }

    /** Records the pair in all three maps and keeps the allocator's new state. */
    method Record(entity: Entity, componentID: nat, block: nat, allocator: AllocatorState)
      requires componentID < |allocators|
      modifies this
      ensures State() == old(State()).Record(entity, componentID, block, allocator)
    {
      var held := if entity in entityToComponents then entityToComponents[entity] else {};
      var holders := if componentID in componentToEntities then componentToEntities[componentID] else {};
      allocators := allocators[componentID := Some(allocator)];
      entityToComponents := entityToComponents[entity := held + {componentID}];
      componentToEntities := componentToEntities[componentID := holders + {entity}];
      entityComponentToData := entityComponentToData[(entity, componentID) := block];
    }

    method RemoveComponent(entity: Entity, componentID: nat) returns (r: Outcome)
      requires Valid()
      modifies this
      ensures Valid() && (r, State()) == old(State()).RemoveComponent(entity, componentID)
    {
      ghost var s0 := State();
      r := CheckPair(entity, componentID);
      if r.Fail? {
        return;
      }
      if entity in entityToComponents && componentID in entityToComponents[entity] {
        HeldComponentsAttached(s0, entity, s0);
        Detach(entity, componentID);
        entityToComponents := entityToComponents[entity := entityToComponents[entity] - {componentID}];
        assert State() == s0.RemoveComponent(entity, componentID).1;
        RemoveComponentKeepsInv(s0, entity, componentID);
      }
    }

    /** `HasComponent`: after the checks, whether the pair is recorded. */
    method HasComponent(entity: Entity, componentID: nat) returns (r: Result<bool>)
      requires Valid()
      ensures r == State().HasComponent(entity, componentID)
      ensures r.Success? ==> (r.value <==> (entity, componentID) in entityComponentToData)
    {
      var checked := CheckPair(entity, componentID);
      if checked.Fail? {
        return Failure(checked.error);
      }
      return Success(entity in entityToComponents && componentID in entityToComponents[entity]);
    }

    /** `GetComponent`: after the checks, the pair's block, or null; a block returned is one its allocator has handed out. */
    method GetComponent(entity: Entity, componentID: nat) returns (r: Result<Option<nat>>)
      requires Valid()
      ensures r == State().GetComponent(entity, componentID)
      ensures r.Success? && r.value.Some? ==>
        r.value.value < allocators[componentID].value.blockCount
        && r.value.value !in allocators[componentID].value.freeList
    {
      var checked := CheckPair(entity, componentID);
      if checked.Fail? {
        return Failure(checked.error);
      }
      if (entity, componentID) in entityComponentToData {
        assert State().OwnsBlock((entity, componentID));
        return Success(Some(entityComponentToData[(entity, componentID)]));
      }
      return Success(None);
    }

    /** `View`: after the checks, the entities holding the component. */
    method View(componentID: nat) returns (r: Result<set<Entity>>)
      requires Valid()
      ensures r == State().View(componentID)
      ensures r.Success? ==> forall e :: e in r.value <==> (e, componentID) in entityComponentToData
    {
      if !isReady {
        return Failure(NotReady);
      }
      if componentID >= |pools| {
        return Failure(ComponentOutOfRange);
      }
      if componentID in componentToEntities {
        return Success(componentToEntities[componentID]);
      }
      return Success({});
    }
  }
}
