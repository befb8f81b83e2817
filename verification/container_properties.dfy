/**
 * What the generational container promises, stated over `Slots` and proved
 * for every state and every handle.
 */
module ContainerProperties {
  import opened Outcomes
  import opened Ids
  import opened Containers

  /** Every mutator keeps the vectors parallel, and all but `Clear` keep the free stack inside the table. */
  lemma MutatorsKeepShape<T>(s: Slots<T>, id: ID, obj: Option<T>, count: nat)
    requires s.WellFormed() && s.FreeInRange()
    ensures s.Create(count).1.WellFormed() && s.Create(count).1.FreeInRange()
    ensures s.Release(id).1.WellFormed() && s.Release(id).1.FreeInRange()
    ensures s.Add(obj).1.WellFormed() && s.Add(obj).1.FreeInRange()
    ensures s.Erase(id).1.WellFormed() && s.Erase(id).1.FreeInRange()
    ensures s.Set(id, obj).1.WellFormed() && s.Set(id, obj).1.FreeInRange()
    ensures s.Clear().WellFormed()
  {
    if s.freeIndices != [] {
      var n := |s.freeIndices| - 1;
      assert forall k :: 0 <= k < n ==> s.Add(obj).1.freeIndices[k] == s.freeIndices[k];
    }
  }

  /** `Create(count)` on an empty table gives `count` empty slots at the default generation; on a non-empty one it fails and changes nothing. */
  lemma CreateMakesEmptySlots<T>(s: Slots<T>, count: nat)
    requires s.WellFormed()
    ensures |s.objects| != 0 ==> s.Create(count) == (Fail(AlreadyCreated), s)
    ensures |s.objects| == 0 ==>
      var (r, t) := s.Create(count);
      && r == Pass && t.GetCount() == count && t.freeIndices == s.freeIndices
      && forall i :: 0 <= i < count ==> t.objects[i] == None && t.generations[i] == ContainerDefaultGeneration
  {
  }

  /**
   * `Add` appends at the old count with the default generation when no index
   * is free; otherwise it takes the most recently freed index, sets that
   * slot's generation to the default, and the count stays the same. No other
   * slot changes.
   */
  lemma AddAppendsOrReusesLastFreed<T>(s: Slots<T>, obj: Option<T>)
    requires s.WellFormed() && s.FreeInRange()
    ensures var (id, t) := s.Add(obj);
      && id.generation == ContainerDefaultGeneration
      && t.objects[id.index] == obj && t.generations[id.index] == ContainerDefaultGeneration
      && (forall j :: 0 <= j < |s.objects| && j != id.index ==>
            t.objects[j] == s.objects[j] && t.generations[j] == s.generations[j])
      && (s.freeIndices == [] ==>
            id.index == s.GetCount() && t.GetCount() == s.GetCount() + 1 && t.freeIndices == [])
      && (s.freeIndices != [] ==>
            id.index == s.freeIndices[|s.freeIndices| - 1] && t.GetCount() == s.GetCount()
            && t.freeIndices == s.freeIndices[..|s.freeIndices| - 1])
  {
  }

  /** The handle `Add` returns names the object just stored. */
  lemma AddThenGet<T>(s: Slots<T>, x: T)
    requires s.WellFormed() && s.FreeInRange()
    ensures var (id, t) := s.Add(Some(x));
      t.WellFormed() && t.Holds(id) && t.Get(id) == Success(x) && t.Contains(id) == Success(true)
  {
    MutatorsKeepShape(s, ID(0, 0), Some(x), 0);
  }

  /**
   * `Erase(id)` succeeds exactly when `id` names a live object. It then hands
   * that object back, empties the slot, raises its generation by one and
   * pushes the index on the free stack, so the handle no longer names
   * anything. On failure nothing changes.
   */
  lemma EraseVacates<T>(s: Slots<T>, id: ID)
    requires s.WellFormed()
    ensures var (r, t) := s.Erase(id);
      && t.WellFormed()
      && (r.Success? <==> s.Holds(id))
      && (r.Failure? ==> t == s && r.error == s.Check(id).error)
      && (r.Success? ==>
            && r == s.Get(id)
            && t.objects == s.objects[id.index := None]
            && t.generations[id.index] == s.generations[id.index] + 1
            && (forall j :: 0 <= j < |s.generations| && j != id.index ==> t.generations[j] == s.generations[j])
            && t.freeIndices == s.freeIndices + [id.index]
            && t.Contains(id) == Success(false)
            && t.Get(id) == Failure(NoObject))
  {
  }

  /** `Release` is `Erase` without the push on the free stack: same checks, same result, same slots. */
  lemma ReleaseIsEraseWithoutFreeing<T>(s: Slots<T>, id: ID)
    requires s.WellFormed()
    ensures s.Release(id).0 == s.Erase(id).0
    ensures s.Release(id).1 == s.Erase(id).1.(freeIndices := s.freeIndices)
    ensures s.Release(id).0.Success? ==> s.Release(id).1.Contains(id) == Success(false)
  {
  }

  /** An index vacated by `Release` (and not otherwise free) is not handed out by the next `Add`. */
  lemma ReleasedIndexNotReused<T>(s: Slots<T>, id: ID, obj: Option<T>)
    requires s.WellFormed() && s.FreeInRange()
    requires s.Release(id).0.Success?
    requires id.index !in s.freeIndices
    ensures s.Release(id).1.FreeInRange()
    ensures s.Release(id).1.Add(obj).0.index != id.index
  {
    var t := s.Release(id).1;
    if t.freeIndices != [] {
      assert t.freeIndices[|t.freeIndices| - 1] in s.freeIndices;
    }
  }

  /** After `Erase(id)` the next `Add` reuses `id`'s index, at the default generation, without growing the table. */
  lemma EraseThenAddReusesIndex<T>(s: Slots<T>, id: ID, obj: Option<T>)
    requires s.WellFormed() && s.FreeInRange()
    requires s.Erase(id).0.Success?
    ensures s.Erase(id).1.FreeInRange()
    ensures var (id2, u) := s.Erase(id).1.Add(obj);
      id2 == ID(id.index, ContainerDefaultGeneration) && u.GetCount() == s.GetCount()
  {
  }

  /**
   * `Set` needs only an in-range index and a matching generation (the slot
   * may be empty); it replaces the object and leaves generations and the free
   * stack alone, so a later `Get` returns the new object.
   */
  lemma SetThenGet<T>(s: Slots<T>, id: ID, x: T)
    requires s.WellFormed()
    ensures var (r, t) := s.Set(id, Some(x));
      && (r.Pass? <==> id.index < |s.objects| && id.generation == s.generations[id.index])
      && (r.Fail? ==> t == s)
      && (r.Pass? ==>
            t.generations == s.generations && t.freeIndices == s.freeIndices
            && t.Get(id) == Success(x))
  {
  }

  /** `Contains` refuses an out-of-range index and otherwise says whether the handle names a live object. */
  lemma ContainsIsHolds<T>(s: Slots<T>, id: ID)
    requires s.WellFormed()
    ensures s.Contains(id).Failure? <==> id.index >= s.GetCount()
    ensures s.Contains(id).Success? ==> (s.Contains(id).value <==> s.Holds(id))
    ensures s.Contains(id).Success? ==> (s.Contains(id).value <==> s.Get(id).Success?)
  {
  }

  /** `Clear` empties the table but keeps the free stack. */
  lemma ClearKeepsFreeStack<T>(s: Slots<T>)
    ensures s.Clear().GetCount() == 0 && s.Clear().freeIndices == s.freeIndices
  {
  }

  /**
   * As written, `Add` resets a reused slot to the default generation. A
   * handle of the default generation whose object was erased therefore names
   * the next object stored there: the stale handle is accepted again.
   */
  lemma StaleIdValidAgainAfterReuse<T>(s: Slots<T>, id: ID, x: T)
    requires s.WellFormed() && s.FreeInRange()
    requires s.Holds(id) && id.generation == ContainerDefaultGeneration
    ensures s.Erase(id).1.FreeInRange()
    ensures s.Erase(id).1.Contains(id) == Success(false)
    ensures var (id2, u) := s.Erase(id).1.Add(Some(x));
      id2 == id && u.Contains(id) == Success(true) && u.Get(id) == Success(x)
  {
  }

  /**
   * With the generation kept on reuse, the reused slot gets a generation one
   * above the erased handle's, and that handle stays invalid.
   */
  lemma ReuseInvalidatesStaleId<T>(s: Slots<T>, id: ID, x: T)
    requires s.WellFormed() && s.FreeInRange()
    requires s.Holds(id)
    ensures s.Erase(id).1.FreeInRange()
    ensures var (id2, u) := s.Erase(id).1.AddKeepingGeneration(Some(x));
      && id2.index == id.index && id2.generation == id.generation + 1
      && u.WellFormed() && u.Contains(id) == Success(false) && u.Get(id2) == Success(x)
  {
  }

  /**
   * As written, `Clear` leaves the free stack behind: when it held an index,
   * the index `Add` would take next lies outside the now empty table, where
   * the source writes out of bounds.
   */
  lemma ClearStrandsFreeIndices<T>(s: Slots<T>)
    requires s.freeIndices != []
    ensures s.Clear().freeIndices[|s.Clear().freeIndices| - 1] >= s.Clear().GetCount()
    ensures !s.Clear().FreeInRange()
  {
  }

  /** Clearing the free stack too leaves a table on which `Add` is safe and starts again at index 0. */
  lemma ClearAllThenAddAppendsAtZero<T>(s: Slots<T>, obj: Option<T>)
    ensures s.ClearAll().WellFormed() && s.ClearAll().FreeInRange()
    ensures s.ClearAll().GetCount() == 0
    ensures s.ClearAll().Add(obj).0 == ID(0, ContainerDefaultGeneration)
  {
  }

  /** The unit-test scenario: `Create(count)` on a new container, then `GetCount()` reports `count`. */
  method CreateThenCount<T>(count: nat) returns (r: Outcome, n: nat)
    ensures r == Pass && n == count
  {
    var c := new Container<T>();
    r := c.Create(count);
    n := c.GetCount();
  }
}
