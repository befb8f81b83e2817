/**
 * Every world operation keeps the world's invariant and leaks no block —
 * except `AddComponent` as ecs.cpp has it, which keeps the invariant but
 * leaks a block on a duplicate (see WorldProperties).
 *
 * Each part of the invariant is proved on its own, from the parts it rests
 * on, and one lemma per operation puts the parts together.
 */
module WorldInvariants {
  import opened Outcomes
  import opened Ids
  import opened FixedBlockPools
  import opened FixedBlockAllocators
  import opened ComponentFactories
  import opened WorldSpec

  lemma NewWorldIsValid()
    ensures NewWorld().Inv() && NewWorld().BlocksAccounted()
    ensures !NewWorld().ready
  {
  }

  // Operations that touch neither the storage nor the three maps.

  /** The storage parts of the invariant only see the storage, the maps and the range of handed-out indices. */
  lemma SameStorageKeepsInv(s: WorldState, t: WorldState)
    requires s.Inv()
    requires t.pools == s.pools && t.allocators == s.allocators
    requires t.entityToComponents == s.entityToComponents && t.componentToEntities == s.componentToEntities
    requires t.data == s.data && t.nextEntityIndex >= s.nextEntityIndex
    requires t.ConfigOk() && t.FreeEntitiesOk()
    ensures t.Inv()
  {
    assert t.MapsAgree();
    forall p | p in t.data
      ensures t.OwnsBlock(p)
    {
      assert s.OwnsBlock(p);
    }
  }

  lemma SameStorageKeepsAccounted(s: WorldState, t: WorldState)
    requires s.BlocksAccounted()
    requires t.allocators == s.allocators && t.componentToEntities == s.componentToEntities
    ensures t.BlocksAccounted()
  {
    forall c | 0 <= c < |t.allocators| && t.allocators[c].Some?
      ensures |t.allocators[c].value.freeList| + |t.Holders(c)| == t.allocators[c].value.blockCount
    {
      assert t.Holders(c) == s.Holders(c);
    }
  }

  lemma SetComponentFactoryRegistryKeepsInv(s: WorldState, registry: seq<ComponentFactory>)
    requires s.Inv() && s.BlocksAccounted()
    ensures s.SetComponentFactoryRegistry(registry).Inv() && s.SetComponentFactoryRegistry(registry).BlocksAccounted()
  {
    SameStorageKeepsInv(s, s.SetComponentFactoryRegistry(registry));
    SameStorageKeepsAccounted(s, s.SetComponentFactoryRegistry(registry));
  }

  lemma SetPoolFactoryKeepsInv(s: WorldState)
    requires s.Inv() && s.BlocksAccounted()
    ensures s.SetPoolFactory().Inv() && s.SetPoolFactory().BlocksAccounted()
  {
    SameStorageKeepsInv(s, s.SetPoolFactory());
    SameStorageKeepsAccounted(s, s.SetPoolFactory());
  }

  lemma SetAllocatorFactoryKeepsInv(s: WorldState)
    requires s.Inv() && s.BlocksAccounted()
    ensures s.SetAllocatorFactory().Inv() && s.SetAllocatorFactory().BlocksAccounted()
  {
    SameStorageKeepsInv(s, s.SetAllocatorFactory());
    SameStorageKeepsAccounted(s, s.SetAllocatorFactory());
  }

  lemma IsReadyKeepsInv(s: WorldState)
    requires s.Inv() && s.BlocksAccounted()
    ensures s.IsReady().1.Inv() && s.IsReady().1.BlocksAccounted()
  {
    SameStorageKeepsInv(s, s.IsReady().1);
    SameStorageKeepsAccounted(s, s.IsReady().1);
  }

  lemma CreateEntityKeepsInv(s: WorldState)
    requires s.Inv() && s.BlocksAccounted()
    ensures s.CreateEntity().1.Inv() && s.CreateEntity().1.BlocksAccounted()
  {
    var t := s.CreateEntity().1;
    assert t.FreeEntitiesOk() by {
      forall k | 0 <= k < |t.freeEntities|
        ensures t.freeEntities[k].index < t.nextEntityIndex
      {
        assert t.freeEntities[k] == s.freeEntities[k];
      }
    }
    SameStorageKeepsInv(s, t);
    SameStorageKeepsAccounted(s, t);
  }

  /**
   * New storage keeps the invariant when nothing is attached yet and every
   * allocator is valid, starts with all its blocks free and carves its pool.
   */
  lemma InstallStorageKeepsInv(s: WorldState, pools: seq<FixedBlockPool?>, allocators: seq<Option<AllocatorState>>)
    requires s.Inv() && s.BlocksAccounted()
    requires s.data == map[] && s.entityToComponents == map[] && s.componentToEntities == map[]
    requires s.InstallStorage(pools, allocators).StorageOk()
    requires forall c :: 0 <= c < |allocators| && allocators[c].Some? ==>
      |allocators[c].value.freeList| == allocators[c].value.blockCount
    ensures s.InstallStorage(pools, allocators).Inv() && s.InstallStorage(pools, allocators).BlocksAccounted()
  {
  }

  // Attaching a pair takes the head block of the component's allocator.

  lemma AttachKeepsMapsAgree(s: WorldState, e: Entity, c: nat)
    requires s.ConfigOk() && s.StorageOk() && s.MapsAgree()
    requires s.CheckPair(e, c).Pass? && s.pools[c] != null && s.allocators[c].Some?
    ensures s.Attach(e, c).1.MapsAgree()
  {
  }

  lemma AttachKeepsBlocksOwned(s: WorldState, e: Entity, c: nat)
    requires s.ConfigOk() && s.StorageOk() && s.BlocksOwned()
    requires s.CheckPair(e, c).Pass? && s.pools[c] != null && s.allocators[c].Some?
    ensures s.Attach(e, c).1.BlocksOwned()
  {
  }

  lemma AttachKeepsBlocksUnshared(s: WorldState, e: Entity, c: nat)
    requires s.ConfigOk() && s.StorageOk() && s.BlocksOwned() && s.BlocksUnshared()
    requires s.CheckPair(e, c).Pass? && s.pools[c] != null && s.allocators[c].Some?
    ensures s.Attach(e, c).1.BlocksUnshared()
  {
  }

  lemma AttachKeepsStorageOk(s: WorldState, e: Entity, c: nat)
    requires s.ConfigOk() && s.StorageOk()
    requires s.CheckPair(e, c).Pass? && s.pools[c] != null && s.allocators[c].Some?
    ensures s.Attach(e, c).1.StorageOk()
  {
  }

  lemma AttachKeepsAccounted(s: WorldState, e: Entity, c: nat)
    requires s.ConfigOk() && s.StorageOk() && s.MapsAgree() && s.BlocksAccounted()
    requires s.CheckPair(e, c).Pass? && s.pools[c] != null && s.allocators[c].Some?
    requires c !in s.Comps(e)
    ensures s.Attach(e, c).1.BlocksAccounted()
  {
  }

  /** Attaching keeps the invariant even for a pair already present; only a new pair keeps every block accounted for. */
  lemma AttachKeepsInv(s: WorldState, e: Entity, c: nat)
    requires s.Inv()
    requires s.CheckPair(e, c).Pass? && s.pools[c] != null && s.allocators[c].Some?
    ensures s.Attach(e, c).1.Inv()
    ensures s.BlocksAccounted() && c !in s.Comps(e) ==> s.Attach(e, c).1.BlocksAccounted()
  {
    AttachKeepsMapsAgree(s, e, c);
    AttachKeepsBlocksOwned(s, e, c);
    AttachKeepsBlocksUnshared(s, e, c);
    AttachKeepsStorageOk(s, e, c);
    if s.BlocksAccounted() && c !in s.Comps(e) {
      AttachKeepsAccounted(s, e, c);
    }
  }

  lemma AddComponentKeepsInv(s: WorldState, e: Entity, c: nat)
    requires s.Inv() && s.BlocksAccounted()
    ensures s.AddComponent(e, c).1.Inv() && s.AddComponent(e, c).1.BlocksAccounted()
  {
    if && s.CheckPair(e, c).Pass? && e.generation == s.generations[e.index] && e !in s.freeEntities
       && s.pools[c] != null && s.allocators[c].Some? && c !in s.Comps(e)
    {
      assert s.AddComponent(e, c) == s.Attach(e, c);
      AttachKeepsInv(s, e, c);
    } else {
      assert s.AddComponent(e, c).1 == s;
    }
  }

  lemma AddComponentAsWrittenKeepsInv(s: WorldState, e: Entity, c: nat)
    requires s.Inv()
    ensures s.AddComponentAsWritten(e, c).1.Inv()
  {
    if s.CheckPair(e, c).Pass? && s.pools[c] != null && s.allocators[c].Some? {
      AttachKeepsInv(s, e, c);
    }
  }

  // Removing a pair the world holds gives its block back.

  lemma RemoveComponentKeepsMapsAgree(s: WorldState, e: Entity, c: nat)
    requires s.Inv()
    requires s.CheckPair(e, c).Pass? && c in s.Comps(e)
    ensures s.RemoveComponent(e, c).1.MapsAgree()
  {
    var t := s.RemoveComponent(e, c).1;
    forall x: Entity, d: nat
      ensures d in t.Comps(x) <==> (x, d) in t.data
      ensures x in t.Holders(d) <==> (x, d) in t.data
    {
      assert d in s.Comps(x) <==> (x, d) in s.data;
      assert x in s.Holders(d) <==> (x, d) in s.data;
    }
  }

  lemma RemoveComponentKeepsBlocksOwned(s: WorldState, e: Entity, c: nat)
    requires s.Inv()
    requires s.CheckPair(e, c).Pass? && c in s.Comps(e)
    ensures s.RemoveComponent(e, c).1.BlocksOwned()
  {
    var t := s.RemoveComponent(e, c).1;
    forall p | p in t.data
      ensures t.OwnsBlock(p)
    {
      assert s.OwnsBlock(p);
      if p.1 == c {
        assert s.data[p] != s.data[(e, c)];
      }
    }
  }

  lemma RemoveComponentKeepsBlocksUnshared(s: WorldState, e: Entity, c: nat)
    requires s.Inv()
    requires s.CheckPair(e, c).Pass? && c in s.Comps(e)
    ensures s.RemoveComponent(e, c).1.BlocksUnshared()
  {
  }

  lemma RemoveComponentKeepsStorageOk(s: WorldState, e: Entity, c: nat)
    requires s.Inv()
    requires s.CheckPair(e, c).Pass? && c in s.Comps(e)
    ensures s.RemoveComponent(e, c).1.StorageOk()
  {
    assert s.OwnsBlock((e, c));
  }

  lemma RemoveComponentKeepsAccounted(s: WorldState, e: Entity, c: nat)
    requires s.Inv() && s.BlocksAccounted()
    requires s.CheckPair(e, c).Pass? && c in s.Comps(e)
    ensures s.RemoveComponent(e, c).1.BlocksAccounted()
  {
    var t := s.RemoveComponent(e, c).1;
    assert s.OwnsBlock((e, c));
    assert e in s.Holders(c);
    assert t.Holders(c) == s.Holders(c) - {e};
  }

  lemma RemoveComponentKeepsInv(s: WorldState, e: Entity, c: nat)
    requires s.Inv() && s.BlocksAccounted()
    ensures s.RemoveComponent(e, c).1.Inv() && s.RemoveComponent(e, c).1.BlocksAccounted()
  {
    if s.CheckPair(e, c).Pass? && c in s.Comps(e) {
      RemoveComponentKeepsMapsAgree(s, e, c);
      RemoveComponentKeepsBlocksOwned(s, e, c);
      RemoveComponentKeepsBlocksUnshared(s, e, c);
      RemoveComponentKeepsStorageOk(s, e, c);
      RemoveComponentKeepsAccounted(s, e, c);
    }
  }

  // Destroying an entity gives back the blocks of all its components.

  lemma DetachAllKeepsStorageOk(s: WorldState, e: Entity, cs: set<nat>)
    requires s.StorageOk() && s.BlocksOwned()
    ensures s.DetachAll(e, cs).StorageOk()
  {
    var t := s.DetachAll(e, cs);
    forall c | 0 <= c < |t.allocators| && t.allocators[c].Some?
      ensures t.allocators[c].value.Valid()
    {
      if c in cs && s.allocators[c].Some? && (e, c) in s.data {
        assert s.OwnsBlock((e, c));
      }
    }
  }

  lemma DetachAllKeepsBlocksOwned(s: WorldState, e: Entity, cs: set<nat>)
    requires s.BlocksOwned() && s.BlocksUnshared()
    ensures s.DetachAll(e, cs).BlocksOwned()
  {
    var t := s.DetachAll(e, cs);
    forall p | p in t.data
      ensures t.OwnsBlock(p)
    {
      assert s.OwnsBlock(p);
      if p.1 in cs && (e, p.1) in s.data {
        assert p != (e, p.1);
        assert s.data[p] != s.data[(e, p.1)];
      }
    }
  }

  lemma DetachAllKeepsBlocksUnshared(s: WorldState, e: Entity, cs: set<nat>)
    requires s.BlocksUnshared()
    ensures s.DetachAll(e, cs).BlocksUnshared()
  {
  }

  lemma DestroyEntityKeepsMapsAgree(s: WorldState, e: Entity)
    requires s.MapsAgree()
    requires s.ready && e.index < s.nextEntityIndex
    ensures s.DestroyEntity(e).1.MapsAgree()
  {
    var t := s.DestroyEntity(e).1;
    forall x: Entity, c: nat
      ensures c in t.Comps(x) <==> (x, c) in t.data
      ensures x in t.Holders(c) <==> (x, c) in t.data
    {
      assert c in s.Comps(x) <==> (x, c) in s.data;
      assert x in s.Holders(c) <==> (x, c) in s.data;
    }
  }

  lemma DestroyEntityKeepsBlocksOwned(s: WorldState, e: Entity)
    requires s.BlocksOwned() && s.BlocksUnshared()
    requires s.ready && e.index < s.nextEntityIndex
    ensures s.DestroyEntity(e).1.BlocksOwned()
  {
    DetachAllKeepsBlocksOwned(s, e, s.Comps(e));
  }

  lemma DestroyEntityKeepsBlocksUnshared(s: WorldState, e: Entity)
    requires s.BlocksUnshared()
    requires s.ready && e.index < s.nextEntityIndex
    ensures s.DestroyEntity(e).1.BlocksUnshared()
  {
    DetachAllKeepsBlocksUnshared(s, e, s.Comps(e));
  }

  lemma DestroyEntityKeepsStorageOk(s: WorldState, e: Entity)
    requires s.StorageOk() && s.BlocksOwned()
    requires s.ready && e.index < s.nextEntityIndex
    ensures s.DestroyEntity(e).1.StorageOk()
  {
    DetachAllKeepsStorageOk(s, e, s.Comps(e));
  }

  lemma DestroyEntityKeepsAccounted(s: WorldState, e: Entity)
    requires s.MapsAgree() && s.BlocksOwned() && s.BlocksAccounted()
    requires s.ready && e.index < s.nextEntityIndex
    ensures s.DestroyEntity(e).1.BlocksAccounted()
  {
    var t := s.DestroyEntity(e).1;
    forall c | 0 <= c < |t.allocators| && t.allocators[c].Some?
      ensures |t.allocators[c].value.freeList| + |t.Holders(c)| == t.allocators[c].value.blockCount
    {
      if c in s.Comps(e) {
        assert (e, c) in s.data && s.OwnsBlock((e, c));
        assert e in s.Holders(c);
        assert t.Holders(c) == s.Holders(c) - {e};
      } else {
        assert (e, c) !in s.data;
        assert t.Holders(c) == s.Holders(c);
      }
    }
  }

  lemma DestroyEntityKeepsInv(s: WorldState, e: Entity)
    requires s.Inv() && s.BlocksAccounted()
    ensures s.DestroyEntity(e).1.Inv() && s.DestroyEntity(e).1.BlocksAccounted()
  {
    if s.ready && e.index < s.nextEntityIndex {
      DestroyEntityKeepsMapsAgree(s, e);
      DestroyEntityKeepsBlocksOwned(s, e);
      DestroyEntityKeepsBlocksUnshared(s, e);
      DestroyEntityKeepsStorageOk(s, e);
      DestroyEntityKeepsAccounted(s, e);
      assert s.DestroyEntity(e).1.FreeEntitiesOk();
    }
  }
}
