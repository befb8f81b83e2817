/**
 * What the world's operations promise, stated over WorldSpec: the ready
 * gate, entity reuse, what adding, removing and destroying do to the three
 * maps and the allocators, and how the queries agree with one another.
 * Where ecs.cpp lacks a check its unit test expects, a lemma here shows
 * what the code does instead.
 */
module WorldProperties {
  import opened Outcomes
  import opened Ids
  import opened FixedBlockPools
  import opened FixedBlockAllocators
  import opened ComponentFactories
  import opened WorldSpec
  import opened WorldInvariants
  import opened Worlds
  import AllocatorProperties

  /** Until `IsReady()` has succeeded, every operation fails with `NotReady` and changes nothing. */
  lemma NotReadyRefusesEverything(s: WorldState, e: Entity, c: nat)
    requires s.Inv() && !s.ready
    ensures s.CreateEntity() == (Failure(NotReady), s)
    ensures s.DestroyEntity(e) == (Fail(NotReady), s)
    ensures s.AddComponent(e, c) == (Fail(NotReady), s)
    ensures s.AddComponentAsWritten(e, c) == (Fail(NotReady), s)
    ensures s.RemoveComponent(e, c) == (Fail(NotReady), s)
    ensures s.HasComponent(e, c) == Failure(NotReady)
    ensures s.GetComponent(e, c) == Failure(NotReady)
    ensures s.View(c) == Failure(NotReady)
  {
  }

  /**
   * `IsReady()` succeeds exactly when the factory registry, the pool factory
   * and the allocator factory are all set, reports the first one missing in
   * that order, never answers `false`, and on success sets the ready flag;
   * a failure leaves the world as it was.
   */
  lemma IsReadyChecksInOrder(s: WorldState)
    ensures s.IsReady().0 != Success(false)
    ensures s.IsReady().0 == Success(true) <==> s.factories.Some? && s.poolFactorySet && s.allocatorFactorySet
    ensures s.factories.None? ==> s.IsReady().0 == Failure(RegistryNotSet)
    ensures s.factories.Some? && !s.poolFactorySet ==> s.IsReady().0 == Failure(PoolFactoryNotSet)
    ensures s.factories.Some? && s.poolFactorySet && !s.allocatorFactorySet ==> s.IsReady().0 == Failure(AllocatorFactoryNotSet)
    ensures s.IsReady().0.Failure? ==> s.IsReady().1 == s
    ensures s.IsReady().0.Success? ==> s.IsReady().1 == s.(ready := true)
  {
  }

  /** Once the three setters have run, in any of the six orders, `IsReady()` succeeds. */
  lemma ConfiguredWorldBecomesReady(registry: seq<ComponentFactory>)
    ensures var s := NewWorld().SetComponentFactoryRegistry(registry).SetPoolFactory().SetAllocatorFactory();
      s.IsReady() == (Success(true), s.(ready := true))
    ensures var s := NewWorld().SetComponentFactoryRegistry(registry).SetAllocatorFactory().SetPoolFactory();
      s.IsReady() == (Success(true), s.(ready := true))
    ensures var s := NewWorld().SetPoolFactory().SetComponentFactoryRegistry(registry).SetAllocatorFactory();
      s.IsReady() == (Success(true), s.(ready := true))
    ensures var s := NewWorld().SetPoolFactory().SetAllocatorFactory().SetComponentFactoryRegistry(registry);
      s.IsReady() == (Success(true), s.(ready := true))
    ensures var s := NewWorld().SetAllocatorFactory().SetComponentFactoryRegistry(registry).SetPoolFactory();
      s.IsReady() == (Success(true), s.(ready := true))
    ensures var s := NewWorld().SetAllocatorFactory().SetPoolFactory().SetComponentFactoryRegistry(registry);
      s.IsReady() == (Success(true), s.(ready := true))
  {
  }

  /**
   * `CreateEntity()` on a ready world pops the entity destroyed last and
   * hands back its index one generation up, or, with no destroyed entity
   * waiting, takes the next fresh index at the default generation.
   * Either way the index is recorded with the generation handed out, and an
   * index it hands out has been handed out before or is the fresh one.
   */
  lemma CreateEntityReusesOrAppends(s: WorldState)
    requires s.Inv() && s.ready
    ensures var (r, t) := s.CreateEntity();
      && r.Success? && r.value.index < t.nextEntityIndex
      && |t.generations| == t.nextEntityIndex
      && t.generations[r.value.index] == r.value.generation
      && (forall i :: 0 <= i < |s.generations| && i != r.value.index ==> t.generations[i] == s.generations[i])
      && (s.freeEntities != [] ==>
            var last := s.freeEntities[|s.freeEntities| - 1];
            && r.value == ID(last.index, last.generation + 1)
            && s.freeEntities == t.freeEntities + [last]
            && t.nextEntityIndex == s.nextEntityIndex)
      && (s.freeEntities == [] ==>
            && r.value == ID(s.nextEntityIndex, DefaultGeneration)
            && t.freeEntities == []
            && t.nextEntityIndex == s.nextEntityIndex + 1)
  {
    var t := s.CreateEntity().1;
    if s.freeEntities != [] {
      var last := s.freeEntities[|s.freeEntities| - 1];
      assert s.freeEntities == t.freeEntities + [last];
    }
  }

  /** The entity destroyed last comes back first, with the same index and the next generation. */
  lemma DestroyThenCreateBumpsGeneration(s: WorldState, e: Entity)
    requires s.ready && e.index < s.nextEntityIndex
    ensures var t := s.DestroyEntity(e).1;
      t.CreateEntity().0 == Success(ID(e.index, e.generation + 1))
      && t.CreateEntity().1.freeEntities == s.freeEntities
  {
    var t := s.DestroyEntity(e).1;
    assert t.freeEntities == s.freeEntities + [e];
    assert t.freeEntities[..|t.freeEntities| - 1] == s.freeEntities;
  }

  /** `DestroyEntity` refuses an index never handed out, changing nothing. */
  lemma DestroyEntityRefusesUnknownIndex(s: WorldState, e: Entity)
    requires s.ready && e.index >= s.nextEntityIndex
    ensures s.DestroyEntity(e) == (Fail(EntityOutOfRange), s)
  {
  }

  /**
   * After `DestroyEntity` the entity holds no component and no view lists
   * it; it waits on top of the free stack, and the counter and the pools
   * are untouched.
   */
  lemma DestroyEntityForgetsEntity(s: WorldState, e: Entity)
    requires s.Inv() && s.ready && e.index < s.nextEntityIndex
    ensures var (r, t) := s.DestroyEntity(e);
      && r == Pass
      && t.freeEntities == s.freeEntities + [e] && t.nextEntityIndex == s.nextEntityIndex && t.pools == s.pools
      && (forall c: nat :: c < |s.pools| ==> t.HasComponent(e, c) == Success(false) && t.GetComponent(e, c) == Success(None))
      && (forall c: nat :: e !in t.Holders(c))
  {
    var t := s.DestroyEntity(e).1;
    forall c: nat | c < |s.pools|
      ensures t.HasComponent(e, c) == Success(false) && t.GetComponent(e, c) == Success(None)
    {
      assert t.CheckPair(e, c) == Pass;
    }
    forall c: nat
      ensures e !in t.Holders(c)
    {
      assert e in s.Holders(c) ==> c in s.Comps(e);
    }
  }

  /** `DestroyEntity` leaves every pair of every other entity as it was, block included. */
  lemma DestroyEntityKeepsOtherPairs(s: WorldState, e: Entity)
    requires s.ready && e.index < s.nextEntityIndex
    ensures var t := s.DestroyEntity(e).1;
      && (forall x: Entity, c: nat :: x != e ==> ((x, c) in t.data <==> (x, c) in s.data))
      && (forall p :: p in t.data ==> p in s.data && t.data[p] == s.data[p])
  {
    var t := s.DestroyEntity(e).1;
    forall x: Entity, c: nat | x != e
      ensures (x, c) in t.data <==> (x, c) in s.data
    {
      if (x, c) in s.data {
        assert (x, c) in t.data;
      }
    }
  }

  /**
   * `DestroyEntity` puts the block of each component the entity held back at
   * the head of that component's allocator, and leaves every other
   * allocator as it was.
   */
  lemma DestroyEntityFreesBlocks(s: WorldState, e: Entity)
    requires s.Inv() && s.ready && e.index < s.nextEntityIndex
    ensures var t := s.DestroyEntity(e).1;
      && |t.allocators| == |s.allocators|
      && (forall c :: 0 <= c < |s.allocators| && c in s.Comps(e) ==>
            (e, c) in s.data && s.allocators[c].Some?
            && t.allocators[c] == Some(s.allocators[c].value.Free(Some(s.data[(e, c)]))))
      && (forall c :: 0 <= c < |s.allocators| && c !in s.Comps(e) ==> t.allocators[c] == s.allocators[c])
  {
    var t := s.DestroyEntity(e).1;
    forall c | 0 <= c < |s.allocators| && c in s.Comps(e)
      ensures (e, c) in s.data && s.allocators[c].Some?
    {
      assert (e, c) in s.data && s.OwnsBlock((e, c));
    }
    forall c | 0 <= c < |s.allocators| && c !in s.Comps(e)
      ensures t.allocators[c] == s.allocators[c]
    {
      assert (e, c) !in s.data;
    }
  }

  /**
   * `AddComponent` fails, changing nothing, on the first check that does not
   * hold: ready, entity index handed out, component id in range, entity
   * generation the one its index was last issued with, pool and allocator
   * present, component not yet held, factory registered, block
   * size large enough, a free block left. It succeeds exactly when all hold.
   */
  lemma AddComponentChecks(s: WorldState, e: Entity, c: nat)
    requires s.Inv()
    ensures var (r, t) := s.AddComponent(e, c);
      && (r.Fail? ==> t == s)
      && (r == Pass <==>
            && s.ready && e.index < s.nextEntityIndex && c < |s.pools|
            && e.generation == s.generations[e.index] && e !in s.freeEntities
            && s.pools[c] != null && s.allocators[c].Some?
            && c !in s.Comps(e)
            && c < |s.factories.value|
            && s.factories.value[c].GetProductSize() <= s.allocators[c].value.blockSize
            && s.allocators[c].value.freeList != [])
  {
  }

  /**
   * A successful `AddComponent` records the pair, which holds the block that
   * was at the head of the allocator's free list, and changes nothing else.
   */
  lemma AddComponentRecords(s: WorldState, e: Entity, c: nat)
    requires s.Inv() && s.AddComponent(e, c).0 == Pass
    ensures c < |s.allocators| && s.allocators[c].Some? && s.allocators[c].value.freeList != []
    ensures (e, c) !in s.data && c !in s.Comps(e) && e !in s.Holders(c)
    ensures var t := s.AddComponent(e, c).1;
      var head := s.allocators[c].value.freeList[0];
      && t.allocators == s.allocators[c := Some(s.allocators[c].value.(freeList := s.allocators[c].value.freeList[1..]))]
      && t.data == s.data[(e, c) := head]
      && (forall x :: t.Comps(x) == if x == e then s.Comps(x) + {c} else s.Comps(x))
      && (forall d :: t.Holders(d) == if d == c then s.Holders(d) + {e} else s.Holders(d))
      && t.freeEntities == s.freeEntities && t.nextEntityIndex == s.nextEntityIndex
      && t.generations == s.generations
      && t.pools == s.pools && t.ready == s.ready && t.factories == s.factories
  {
    assert (e, c) !in s.data;
  }

  /** After a successful `AddComponent` the entity has the component, `GetComponent` gives its block and the view lists the entity. */
  lemma AddComponentAttaches(s: WorldState, e: Entity, c: nat)
    requires s.Inv() && s.AddComponent(e, c).0 == Pass
    ensures c < |s.allocators| && s.allocators[c].Some? && s.allocators[c].value.freeList != []
    ensures var t := s.AddComponent(e, c).1;
      && t.HasComponent(e, c) == Success(true)
      && t.GetComponent(e, c) == Success(Some(s.allocators[c].value.freeList[0]))
      && t.View(c) == Success(s.Holders(c) + {e})
  {
    AddComponentRecords(s, e, c);
    var t := s.AddComponent(e, c).1;
    assert t.CheckPair(e, c) == Pass;
  }

  /** A component the entity already holds is refused with `DuplicateComponent`, and the world is unchanged. */
  lemma AddComponentRefusesDuplicate(s: WorldState, e: Entity, c: nat)
    requires s.Inv() && s.CheckPair(e, c).Pass? && s.pools[c] != null && s.allocators[c].Some?
    requires e.generation == s.generations[e.index] && e !in s.freeEntities && (e, c) in s.data
    ensures s.AddComponent(e, c) == (Fail(DuplicateComponent), s)
  {
    assert c in s.Comps(e);
  }

  /** `RemoveComponent` of a component the entity does not hold succeeds and changes nothing. */
  lemma RemoveAbsentIsNoop(s: WorldState, e: Entity, c: nat)
    requires s.Inv() && s.CheckPair(e, c).Pass? && (e, c) !in s.data
    ensures s.RemoveComponent(e, c) == (Pass, s)
  {
    assert c !in s.Comps(e);
  }

  /**
   * `RemoveComponent` of a held component drops the pair from all three maps
   * and puts its block back at the head of the component's allocator;
   * every other pair and allocator is untouched.
   */
  lemma RemoveComponentDetaches(s: WorldState, e: Entity, c: nat)
    requires s.Inv() && s.CheckPair(e, c).Pass? && (e, c) in s.data
    ensures var (r, t) := s.RemoveComponent(e, c);
      && r == Pass
      && t.HasComponent(e, c) == Success(false) && t.GetComponent(e, c) == Success(None)
      && t.View(c) == Success(s.Holders(c) - {e})
      && s.allocators[c].Some?
      && t.allocators == s.allocators[c := Some(s.allocators[c].value.Free(Some(s.data[(e, c)])))]
      && t.data == s.data - {(e, c)}
      && (forall x :: t.Comps(x) == if x == e then s.Comps(x) - {c} else s.Comps(x))
      && (forall d :: t.Holders(d) == if d == c then s.Holders(d) - {e} else s.Holders(d))
      && t.freeEntities == s.freeEntities && t.nextEntityIndex == s.nextEntityIndex && t.pools == s.pools
  {
    assert c in s.Comps(e) && e in s.Holders(c);
    assert s.OwnsBlock((e, c));
    var t := s.RemoveComponent(e, c).1;
    assert t.CheckPair(e, c) == Pass;
  }

  /**
   * Removing a component just added gives back the world's blocks exactly:
   * the allocators and the data map are as before, and so are the free
   * stack and the entity counter.
   */
  lemma AddThenRemoveRestoresBlocks(s: WorldState, e: Entity, c: nat)
    requires s.Inv() && s.BlocksAccounted() && s.AddComponent(e, c).0 == Pass
    ensures var t := s.AddComponent(e, c).1;
      t.Inv() && t.RemoveComponent(e, c).0 == Pass &&
      var u := t.RemoveComponent(e, c).1;
      && u.allocators == s.allocators && u.data == s.data
      && u.freeEntities == s.freeEntities && u.nextEntityIndex == s.nextEntityIndex
  {
    AddComponentRecords(s, e, c);
    AddComponentKeepsInv(s, e, c);
    var t := s.AddComponent(e, c).1;
    assert (e, c) in t.data;
    RemoveComponentDetaches(t, e, c);
    var u := t.RemoveComponent(e, c).1;
    RemoveUndoesAttach(s.allocators, s.data, t.allocators, t.data, u.allocators, u.data, e, c);
  }

  /** Freeing the block an attach took, and dropping its entry, undoes the attach. */
  lemma RemoveUndoesAttach(
    allocators0: seq<Option<AllocatorState>>, data0: map<(Entity, nat), nat>,
    allocators1: seq<Option<AllocatorState>>, data1: map<(Entity, nat), nat>,
    allocators2: seq<Option<AllocatorState>>, data2: map<(Entity, nat), nat>,
    e: Entity, c: nat)
    requires c < |allocators0| && allocators0[c].Some? && allocators0[c].value.freeList != [] && (e, c) !in data0
    requires var a := allocators0[c].value;
      && allocators1 == allocators0[c := Some(a.(freeList := a.freeList[1..]))]
      && data1 == data0[(e, c) := a.freeList[0]]
    requires c < |allocators1| && allocators1[c].Some? && (e, c) in data1
    requires allocators2 == allocators1[c := Some(allocators1[c].value.Free(Some(data1[(e, c)])))]
    requires data2 == data1 - {(e, c)}
    ensures allocators2 == allocators0 && data2 == data0
  {
    var a := allocators0[c].value;
    assert [a.freeList[0]] + a.freeList[1..] == a.freeList;
    assert allocators2[c] == allocators0[c];
  }

  /** Removing a component just added gives back the memberships: every entity holds, and every component is held by, what it was. */
  lemma AddThenRemoveRestoresMemberships(s: WorldState, e: Entity, c: nat)
    requires s.Inv() && s.BlocksAccounted() && s.AddComponent(e, c).0 == Pass
    ensures var t := s.AddComponent(e, c).1;
      t.Inv() && t.RemoveComponent(e, c).0 == Pass &&
      var u := t.RemoveComponent(e, c).1;
      && (forall x :: u.Comps(x) == s.Comps(x))
      && (forall d :: u.Holders(d) == s.Holders(d))
  {
    AddComponentRecords(s, e, c);
    AddComponentKeepsInv(s, e, c);
    var t := s.AddComponent(e, c).1;
    assert (e, c) in t.data;
    RemoveComponentDetaches(t, e, c);
    var u := t.RemoveComponent(e, c).1;
    RemoveUndoesMembership(s, t, u, e, c);
  }

  /** Dropping the pair an attach recorded undoes the attach's membership changes. */
  lemma RemoveUndoesMembership(s: WorldState, t: WorldState, u: WorldState, e: Entity, c: nat)
    requires c !in s.Comps(e) && e !in s.Holders(c)
    requires forall x :: t.Comps(x) == if x == e then s.Comps(x) + {c} else s.Comps(x)
    requires forall d :: t.Holders(d) == if d == c then s.Holders(d) + {e} else s.Holders(d)
    requires forall x :: u.Comps(x) == if x == e then t.Comps(x) - {c} else t.Comps(x)
    requires forall d :: u.Holders(d) == if d == c then t.Holders(d) - {e} else t.Holders(d)
    ensures forall x :: u.Comps(x) == s.Comps(x)
    ensures forall d :: u.Holders(d) == s.Holders(d)
  {
    assert s.Comps(e) + {c} - {c} == s.Comps(e);
    assert s.Holders(c) + {e} - {e} == s.Holders(c);
  }

  /** A component is listed by `View` exactly for the entities `HasComponent` says hold it. */
  lemma ViewAgreesWithHasComponent(s: WorldState, c: nat, e: Entity)
    requires s.Inv() && s.View(c).Success?
    ensures e in s.View(c).value <==> s.HasComponent(e, c) == Success(true)
  {
    if e in s.View(c).value {
      assert (e, c) in s.data && s.OwnsBlock((e, c));
    }
  }

  /** `HasComponent` and `GetComponent` agree: a pair is held exactly when it has a block. */
  lemma HasAgreesWithGet(s: WorldState, e: Entity, c: nat)
    requires s.Inv()
    ensures s.HasComponent(e, c).Success? <==> s.GetComponent(e, c).Success?
    ensures s.HasComponent(e, c).Success? ==>
      (s.HasComponent(e, c).value <==> s.GetComponent(e, c).value.Some?)
  {
  }

  /**
   * A block `GetComponent` returns is in use by its allocator, and its bytes
   * lie wholly inside the component's pool.
   */
  lemma ComponentBlockInsidePool(s: WorldState, e: Entity, c: nat)
    requires s.Inv() && s.GetComponent(e, c).Success? && s.GetComponent(e, c).value.Some?
    ensures var b := s.GetComponent(e, c).value.value;
      && s.pools[c] != null && s.allocators[c].Some?
      && b !in s.allocators[c].value.freeList
      && s.pools[c].address <= s.allocators[c].value.Address(b)
      && s.allocators[c].value.Address(b) + s.allocators[c].value.blockSize <= s.pools[c].address + s.pools[c].size
  {
    assert s.OwnsBlock((e, c));
    var a := s.allocators[c].value;
    AllocatorProperties.BlockInsidePool(a, s.pools[c].size, s.data[(e, c)]);
  }

  // Checks the unit test expects and ecs.cpp does not make.

  /**
   * `AddComponent` as ecs.cpp has it accepts a component the entity already
   * holds: it takes a second block and overwrites the data entry, so the
   * first block is neither free nor held by any pair any more — it leaks,
   * and the block accounting breaks.
   */
  lemma DuplicateAddLeaksBlock(s: WorldState, e: Entity, c: nat)
    requires s.Inv() && s.BlocksAccounted()
    requires s.CheckPair(e, c).Pass? && s.pools[c] != null && s.allocators[c].Some? && (e, c) in s.data
    requires c < |s.factories.value| && s.factories.value[c].GetProductSize() <= s.allocators[c].value.blockSize
    requires s.allocators[c].value.freeList != []
    ensures var (r, t) := s.AddComponentAsWritten(e, c);
      && r == Pass
      && !t.BlocksAccounted()
      && s.data[(e, c)] !in t.allocators[c].value.freeList
      && (forall p :: p in t.data && p.1 == c ==> t.data[p] != s.data[(e, c)])
  {
    var t := s.AddComponentAsWritten(e, c).1;
    var a := s.allocators[c].value;
    var lost := s.data[(e, c)];
    assert s.OwnsBlock((e, c));
    assert lost !in a.freeList[1..];
    assert e in s.Holders(c) && t.Holders(c) == s.Holders(c);
    assert |t.allocators[c].value.freeList| + |t.Holders(c)| == a.blockCount - 1;
    forall p | p in t.data && p.1 == c
      ensures t.data[p] != lost
    {
      if p == (e, c) {
        assert t.data[p] == a.freeList[0];
      } else {
        assert s.data[p] != s.data[(e, c)];
      }
    }
  }

  /** A new world given a factory registry and both factories, after `IsReady()` has passed. */
  method ConfiguredWorld(registry: seq<ComponentFactory>) returns (world: ECSWorld)
    ensures fresh(world) && world.Valid()
    ensures world.State() == NewWorld().(factories := Some(registry), poolFactorySet := true,
                                         allocatorFactorySet := true, ready := true)
  {
    world := new ECSWorld();
    world.SetComponentFactoryRegistry(registry);
    world.SetPoolFactory();
    world.SetAllocatorFactory();
    IsReadyChecksInOrder(world.State());
    var ready := world.IsReady();
  }

  /**
   * A world configured and made ready in the unit test's order, but with a
   * single component id (size 8) whose pool holds eight blocks, all free,
   * where the test registers two component types of at most ten each. No
   * entity exists yet.
   */
  method ReadyWorld() returns (world: ECSWorld)
    ensures fresh(world) && world.Valid() && world.isReady
    ensures world.factories == Some([ComponentFactory(8)])
    ensures world.freeEntities == [] && world.nextEntityIndex == 0
    ensures |world.pools| == 1 && world.pools[0] != null
    ensures |world.allocators| == 1 && world.allocators[0].Some?
    ensures world.allocators[0].value.blockSize == 8 && |world.allocators[0].value.freeList| == 8
    ensures world.entityComponentToData == map[]
  {
    var pool := CreatePool(64, 0);
    AllocatorProperties.ConstructionFreesEveryBlock(0, 64, 8);
    var allocator := Initial(0, 64, 8).value;
    world := ConfiguredWorld([ComponentFactory(8)]);
    world.InstallStorage([pool], [Some(allocator)]);
  }

  /**
   * The first steps of the unit test's duplicate and stale adds, driven
   * through the world object: an entity created on a ready world is the
   * fresh index 0 at the default generation, and adding component 0 to it
   * succeeds and leaves a free block.
   */
  method EntityHoldingComponent() returns (world: ECSWorld, entity: Entity)
    ensures world.Valid() && entity == ID(0, DefaultGeneration)
    ensures world.State().CheckPair(entity, 0).Pass? && world.State().freeEntities == []
    ensures world.State().generations[0] == DefaultGeneration
    ensures world.State().pools[0] != null && world.State().allocators[0].Some?
    ensures (entity, 0) in world.State().data
    ensures world.State().factories == Some([ComponentFactory(8)])
    ensures world.State().allocators[0].value.blockSize == 8
    ensures world.State().allocators[0].value.freeList != []
  {
    world := ReadyWorld();
    CreateEntityReusesOrAppends(world.State());
    var created := world.CreateEntity();
    entity := created.value;
    ghost var before := world.State();
    assert before.ready && entity.index < before.nextEntityIndex && |before.pools| == 1;
    assert entity.generation == before.generations[entity.index] && before.freeEntities == [];
    assert before.Comps(entity) == {};
    AddComponentChecks(before, entity, 0);
    var added := world.AddComponent(entity, 0);
    assert added == Pass;
    AddComponentRecords(before, entity, 0);
  }

  /**
   * The unit test's duplicate add: a second add of component 0 to the entity
   * is accepted by ecs.cpp as written, which loses a block, while the world
   * with the duplicate check refuses it and changes nothing.
   */
  method DuplicateAddScenario() returns (world: ECSWorld, entity: Entity)
    ensures world.Valid()
    ensures world.State().AddComponentAsWritten(entity, 0).0 == Pass
    ensures !world.State().AddComponentAsWritten(entity, 0).1.BlocksAccounted()
    ensures world.State().AddComponent(entity, 0) == (Fail(DuplicateComponent), world.State())
  {
    world, entity := EntityHoldingComponent();
    DuplicateAddLeaksBlock(world.State(), entity, 0);
    AddComponentRefusesDuplicate(world.State(), entity, 0);
  }

  /**
   * The unit test's add through a stale handle: with entity 0 holding
   * component 0, `ID(0, 10)` is accepted by ecs.cpp as written, which reads
   * only the index, while the world with the generation check refuses it
   * with `StaleEntity` and changes nothing.
   */
  method StaleAddScenario() returns (world: ECSWorld, entity: Entity)
    ensures world.Valid() && entity == ID(0, 10)
    ensures world.State().AddComponentAsWritten(entity, 0).0 == Pass
    ensures world.State().AddComponent(entity, 0) == (Fail(StaleEntity), world.State())
  {
    var live;
    world, live := EntityHoldingComponent();
    entity := ID(0, 10);
    AddComponentAsWrittenAcceptsStaleEntity(world.State(), live, 10, 0);
    AddComponentRefusesStaleEntity(world.State(), entity, 0);
  }

  /**
   * `AddComponentAsWritten` never looks at an entity's generation: an entity
   * with the same index and any generation meets the same checks and gets
   * the same outcome.
   */
  lemma AddComponentIgnoresGeneration(s: WorldState, e: Entity, generation: nat, c: nat)
    requires s.Inv()
    ensures s.CheckPair(ID(e.index, generation), c) == s.CheckPair(e, c)
    ensures s.AddComponentAsWritten(ID(e.index, generation), c).0 == s.AddComponentAsWritten(e, c).0
  {
  }

  /**
   * The unit test's stale handle: while the live entity of an index holds
   * `c`, an entity of that index and another generation is still given `c`
   * by `AddComponentAsWritten` when a block is free, and both pairs are
   * recorded.
   */
  lemma AddComponentAsWrittenAcceptsStaleEntity(s: WorldState, e: Entity, generation: nat, c: nat)
    requires s.Inv() && s.CheckPair(e, c).Pass? && s.pools[c] != null && s.allocators[c].Some?
    requires e.generation == s.generations[e.index] && (e, c) in s.data && generation != e.generation
    requires c < |s.factories.value| && s.factories.value[c].GetProductSize() <= s.allocators[c].value.blockSize
    requires s.allocators[c].value.freeList != []
    ensures var (r, t) := s.AddComponentAsWritten(ID(e.index, generation), c);
      && r == Pass
      && (e, c) in t.data && (ID(e.index, generation), c) in t.data
  {
    var f := ID(e.index, generation);
    var a := s.allocators[c].value;
    assert s.CheckPair(f, c) == Pass;
    assert a.Malloc(s.factories.value[c].GetProductSize()) == (Success(a.freeList[0]), a.(freeList := a.freeList[1..]));
    assert s.AddComponentAsWritten(f, c) == (Pass, s.Record(f, c, a.freeList[0], a.(freeList := a.freeList[1..])));
  }

  /**
   * The liveness check of the corrected `AddComponent`: an entity whose
   * index was handed out but whose generation is not the one it was last
   * issued with, or which was destroyed and waits for reuse, is refused with
   * `StaleEntity`, and the world is unchanged.
   */
  lemma AddComponentRefusesStaleEntity(s: WorldState, e: Entity, c: nat)
    requires s.Inv() && s.CheckPair(e, c).Pass?
    requires e.generation != s.generations[e.index] || e in s.freeEntities
    ensures s.AddComponent(e, c) == (Fail(StaleEntity), s)
  {
  }

  /**
   * A destroyed entity is refused by the corrected `AddComponent` until its
   * index is handed out again, whatever component is asked for, and the
   * world is unchanged, though the checks ecs.cpp makes still pass.
   */
  lemma DestroyedEntityRefused(s: WorldState, e: Entity, c: nat)
    requires s.Inv() && s.BlocksAccounted() && s.ready && e.index < s.nextEntityIndex && c < |s.pools|
    ensures var t := s.DestroyEntity(e).1;
      && t.Inv()
      && t.AddComponent(e, c) == (Fail(StaleEntity), t)
      && t.CheckPair(e, c) == Pass
  {
    DestroyEntityKeepsInv(s, e);
    DestroyEntityForgetsEntity(s, e);
    var t := s.DestroyEntity(e).1;
    assert e in t.freeEntities;
  }

  /**
   * `DestroyEntity` has no guard against destroying an entity twice: the
   * entity then waits twice on the free stack, and the next two
   * `CreateEntity` calls hand out the same entity.
   */
  lemma DoubleDestroyReissuesEntity(s: WorldState, e: Entity)
    requires s.ready && e.index < s.nextEntityIndex
    ensures var t := s.DestroyEntity(e).1.DestroyEntity(e).1;
      && t.CreateEntity().0 == Success(ID(e.index, e.generation + 1))
      && t.CreateEntity().1.CreateEntity().0 == Success(ID(e.index, e.generation + 1))
  {
    var t := s.DestroyEntity(e).1.DestroyEntity(e).1;
    assert t.freeEntities == s.freeEntities + [e] + [e];
    assert t.CreateEntity().1.freeEntities == s.freeEntities + [e];
  }
}
