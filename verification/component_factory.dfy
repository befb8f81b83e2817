/**
 * `ComponentFactory<T>` (include/ecs.h): constructs and destroys a component
 * of type `T` in place in raw memory. The bytes themselves are outside the
 * model; a factory is known by the size of what it builds, and memory by the
 * block that holds it.
 */
module ComponentFactories {
  import opened Outcomes

  datatype ComponentFactory = ComponentFactory(productSize: nat) {

    /** `GetProductSize()`: `sizeof(T)`, the same for every call. */
    function GetProductSize(): nat
    {
      productSize
    }

    /**
     * `Create(data)`: null gives null and builds nothing; otherwise the
     * component is placement-constructed at `data`, and that same location
     * is returned.
     */
    function Create(data: Option<nat>): (r: Option<nat>)
      ensures r.None? <==> data.None?
      ensures r.Some? ==> r.value == data.value
    {
      data
    }
  }
}
