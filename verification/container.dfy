/**
 * `Container<T>` (include/container.h): a generational slot table. Each slot
 * holds an optional owned object and a generation; vacated indices are kept
 * on a stack for reuse. An `ID` names a slot by index and is accepted only
 * while its generation matches the slot's.
 *
 * `Slots` is the value of the three vectors and the operations on it; the
 * class `Container` holds the vectors as fields and is proved to update them
 * exactly as `Slots` says.
 */
module Containers {
  import opened Outcomes
  import opened Ids

  /**
   * `CONTAINER_DEFAULT_GENERATION`, the generation of a new or reused slot.
   * Its definition is not part of this model; it is taken to be 0, the value
   * of `ID_DEFAULT_GENERATION`.
   */
  const ContainerDefaultGeneration: nat := 0

  datatype Slots<T> = Slots(objects: seq<Option<T>>, generations: seq<nat>, freeIndices: seq<nat>) {

    /** The object and generation vectors always have the same length. */
    ghost predicate WellFormed()
    {
      |objects| == |generations|
    }

    /** Every index on the free stack names an existing slot. */
    ghost predicate FreeInRange()
    {
      forall k :: 0 <= k < |freeIndices| ==> freeIndices[k] < |objects|
    }

    /** `id` names an occupied slot of the current generation. */
    ghost predicate Holds(id: ID)
      requires WellFormed()
    {
      id.index < |objects| && objects[id.index].Some? && id.generation == generations[id.index]
    }

    /** The checks shared by `Release`, `Erase` and `Get`, in the source's order. */
    function Check(id: ID): Outcome
      requires WellFormed()
    {
      if id.index >= |objects| then Fail(IdOutOfRange)
      else if objects[id.index].None? then Fail(NoObject)
      else if id.generation != generations[id.index] then Fail(GenerationMismatch)
      else Pass
    }

    /** `Create(count)`: only on an empty table; makes `count` empty slots at the default generation. */
    function Create(count: nat): (Outcome, Slots<T>)
      requires WellFormed()
    {
      if |objects| != 0 then (Fail(AlreadyCreated), this)
      else (Pass, Slots(seq(count, _ => None), seq(count, _ => ContainerDefaultGeneration), freeIndices))
    }

    /** `Release(id)`: moves the object out and bumps the generation; the index is not freed. */
    function Release(id: ID): (Result<T>, Slots<T>)
      requires WellFormed()
    {
      if Check(id).Fail? then (Failure(Check(id).error), this)
      else
        var i := id.index;
        (Success(objects[i].value),
         Slots(objects[i := None], generations[i := generations[i] + 1], freeIndices))
    }

    /**
     * `Add(obj)`: appends a slot when the free stack is empty, otherwise
     * reuses the index on top of it. Either way the slot's generation is set
     * to the default. The source stores a null object as given.
     */
    function Add(obj: Option<T>): (ID, Slots<T>)
      requires WellFormed() && FreeInRange()
    {
      if freeIndices == [] then
        (ID(|objects|, ContainerDefaultGeneration),
         Slots(objects + [obj], generations + [ContainerDefaultGeneration], freeIndices))
      else
        var i := freeIndices[|freeIndices| - 1];
        (ID(i, ContainerDefaultGeneration),
         Slots(objects[i := obj], generations[i := ContainerDefaultGeneration], freeIndices[..|freeIndices| - 1]))
    }

    /** `Erase(id)`: like `Release`, and the index is pushed on the free stack. */
    function Erase(id: ID): (Result<T>, Slots<T>)
      requires WellFormed()
    {
      if Check(id).Fail? then (Failure(Check(id).error), this)
      else
        var i := id.index;
        (Success(objects[i].value),
         Slots(objects[i := None], generations[i := generations[i] + 1], freeIndices + [i]))
    }

    /** `Get(id)`: the object `id` names. */
    function Get(id: ID): Result<T>
      requires WellFormed()
    {
      if Check(id).Fail? then Failure(Check(id).error) else Success(objects[id.index].value)
    }

    /** `Set(id, obj)`: checks range and generation only, then replaces the slot's object. */
    function Set(id: ID, obj: Option<T>): (Outcome, Slots<T>)
      requires WellFormed()
    {
      if id.index >= |objects| then (Fail(IdOutOfRange), this)
      else if id.generation != generations[id.index] then (Fail(GenerationMismatch), this)
      else (Pass, Slots(objects[id.index := obj], generations, freeIndices))
    }

    function GetGeneration(index: nat): Result<nat>
      requires WellFormed()
    {
      if index >= |generations| then Failure(IndexOutOfRange) else Success(generations[index])
    }

    /** `Contains(id)`: refuses an out-of-range index; otherwise whether the slot is occupied at `id`'s generation. */
    function Contains(id: ID): Result<bool>
      requires WellFormed()
    {
      if id.index >= |objects| then Failure(IdOutOfRange)
      else Success(objects[id.index].Some? && id.generation == generations[id.index])
    }

    function GetCount(): nat
    {
      |objects|
    }

    /** `Clear()`: drops every slot; the free stack is left as it was. */
    function Clear(): Slots<T>
    {
      Slots([], [], freeIndices)
    }

    /**
     * `Add` with the reset of the generation left out: a reused slot keeps the
     * generation `Erase` raised, so a handle to the erased object stays
     * refused by the generation checks of `Get` and `Contains`.
     */
    function AddKeepingGeneration(obj: Option<T>): (ID, Slots<T>)
      requires WellFormed() && FreeInRange()
    {
      if freeIndices == [] then
        (ID(|objects|, ContainerDefaultGeneration),
         Slots(objects + [obj], generations + [ContainerDefaultGeneration], freeIndices))
      else
        var i := freeIndices[|freeIndices| - 1];
        (ID(i, generations[i]),
         Slots(objects[i := obj], generations, freeIndices[..|freeIndices| - 1]))
    }

    /** `Clear` that also forgets the free stack, so no stale index outlives the slots. */
    function ClearAll(): Slots<T>
    {
      Slots([], [], [])
    }
  }

  /**
   * The container object: the three vectors of the source as fields. Every
   * mutator is proved to leave exactly the state the matching `Slots`
   * operation gives; the readers change nothing.
   */
  class Container<T> {
    var objects: seq<Option<T>>
    var generations: seq<nat>
    var freeIndices: seq<nat>

    ghost function Model(): Slots<T>
      reads this
    {
      Slots(objects, generations, freeIndices)
    }

    ghost predicate Valid()
      reads this
    {
      Model().WellFormed()
    }

    constructor ()
      ensures Valid() && Model() == Slots([], [], [])
    {
      objects, generations, freeIndices := [], [], [];
    }

    method Create(count: nat) returns (r: Outcome)
      requires Valid()
      modifies this
      ensures Valid()
      ensures (r, Model()) == old(Model()).Create(count)
    {
      if |objects| != 0 {
        return Fail(AlreadyCreated);
      }
      objects := seq(count, _ => None);
      generations := seq(count, _ => ContainerDefaultGeneration);
      r := Pass;
    }

    method Release(id: ID) returns (r: Result<T>)
      requires Valid()
      modifies this
      ensures Valid()
      ensures (r, Model()) == old(Model()).Release(id)
    {
      if id.index >= |objects| {
        return Failure(IdOutOfRange);
      }
      if objects[id.index].None? {
        return Failure(NoObject);
      }
      if id.generation != generations[id.index] {
        return Failure(GenerationMismatch);
      }
      generations := generations[id.index := generations[id.index] + 1];
      r := Success(objects[id.index].value);
      objects := objects[id.index := None];
    }

    /** A free index beyond the table (left behind by `Clear`) would be an out-of-bounds write in the source. */
    method Add(obj: Option<T>) returns (id: ID)
      requires Valid() && Model().FreeInRange()
      modifies this
      ensures Valid() && Model().FreeInRange()
      ensures (id, Model()) == old(Model()).Add(obj)
    {
      if freeIndices == [] {
        var i := |objects|;
        objects := objects + [obj];
        generations := generations + [ContainerDefaultGeneration];
        id := ID(i, generations[i]);
      } else {
        var i := freeIndices[|freeIndices| - 1];
        freeIndices := freeIndices[..|freeIndices| - 1];
        objects := objects[i := obj];
        generations := generations[i := ContainerDefaultGeneration];
        id := ID(i, generations[i]);
      }
    }

    method Erase(id: ID) returns (r: Result<T>)
      requires Valid()
      modifies this
      ensures Valid()
      ensures old(Model().FreeInRange()) ==> Model().FreeInRange()
      ensures (r, Model()) == old(Model()).Erase(id)
    {
      if id.index >= |objects| {
        return Failure(IdOutOfRange);
      }
      if objects[id.index] == None {
        return Failure(NoObject);
      }
      if id.generation != generations[id.index] {
        return Failure(GenerationMismatch);
      }
      var obj := objects[id.index].value;
      objects := objects[id.index := None];
      generations := generations[id.index := generations[id.index] + 1];
      freeIndices := freeIndices + [id.index];
      r := Success(obj);
    }

    method Get(id: ID) returns (r: Result<T>)
      requires Valid()
      ensures r == Model().Get(id)
      ensures r.Success? <==> Model().Holds(id)
    {
      if id.index >= |objects| {
        return Failure(IdOutOfRange);
      }
      if objects[id.index] == None {
        return Failure(NoObject);
      }
      if id.generation != generations[id.index] {
        return Failure(GenerationMismatch);
      }
      r := Success(objects[id.index].value);
    }

    method Set(id: ID, obj: Option<T>) returns (r: Outcome)
      requires Valid()
      modifies this
      ensures Valid()
      ensures old(Model().FreeInRange()) ==> Model().FreeInRange()
      ensures (r, Model()) == old(Model()).Set(id, obj)
    {
      if id.index >= |objects| {
        return Fail(IdOutOfRange);
      }
      if id.generation != generations[id.index] {
        return Fail(GenerationMismatch);
      }
      objects := objects[id.index := obj];
      r := Pass;
    }

    method GetGeneration(index: nat) returns (r: Result<nat>)
      requires Valid()
      ensures r == Model().GetGeneration(index)
      ensures r.Success? <==> index < |generations|
      ensures r.Success? ==> r.value == generations[index]
    {
      if index >= |generations| {
        return Failure(IndexOutOfRange);
      }
      r := Success(generations[index]);
    }

    method Contains(id: ID) returns (r: Result<bool>)
      requires Valid()
      ensures r == Model().Contains(id)
      ensures r.Success? ==> (r.value <==> Model().Holds(id))
    {
      if id.index >= |objects| {
        return Failure(IdOutOfRange);
      }
      r := Success(objects[id.index] != None && id.generation == generations[id.index]);
    }

    method GetCount() returns (n: nat)
      ensures n == Model().GetCount()
    {
      n := |objects|;
    }

    method Clear()
      requires Valid()
      modifies this
      ensures Valid()
      ensures Model() == old(Model()).Clear()
    {
      objects := [];
      generations := [];
    }
  }
}
