/** The entity runtime of `src/ecs.rs`: generational entity handles issued by an
    allocator, one sparse set per component type, and the world that owns both.

    Each value type below carries, as member functions, the meaning of the source's
    operations; the classes `EntityAllocator` and `World` hold the same state in
    fields that their methods update in place, and every method is proved to move
    its object exactly as the matching member function says. */
module Ecs {
  import opened Wrappers

  /** `EntityId` is a `u16`. */
  type EntityId = x: nat | x < 0x1_0000

  /** `allocate` names a new entry `entries.len() as u16 - 1`; that is the entry's
      index only while the allocator holds at most this many entries. */
  const MaxEntries: nat := 0xFFFF

  /** A generational handle; two handles are equal when both fields are. */
  datatype Entity = Entity(id: EntityId, generation: nat)

  datatype AllocatorEntry = AllocatorEntry(isLive: bool, generation: nat)

  datatype EntityError = OutOfBounds(entity: Entity) | InvalidEntity(entity: Entity)

  /** The key a component pool is registered under; it stands for Rust's `TypeId`. */
  type TypeTag = string

  datatype EntityComponentError =
    | InvalidEntity(entity: Entity)
    | MissingComponent(entity: Entity, tag: TypeTag)
    | UnregisteredComponent(tag: TypeTag)

  /** What `allocate` produces: the allocator's new state and the handle it issued. */
  datatype Allocation = Allocation(state: AllocatorState, entity: Entity)

  /** What `deallocate` produces: the allocator's new state and the result it returned. */
  datatype Deallocation = Deallocation(state: AllocatorState, result: Result<(), EntityError>)

  /** The contents of an `EntityAllocator`: one entry per id ever issued, and the stack
      of ids that may be reused, whose top is its last element. */
  datatype AllocatorState = AllocatorState(entries: seq<AllocatorEntry>, availableIds: seq<EntityId>)
  {
    /** Kept by every operation: ids fit the `u16` cast, and only issued ids are reusable. */
    predicate WellFormed() {
      && |entries| <= MaxEntries
      && forall i | 0 <= i < |availableIds| :: availableIds[i] < |entries|
    }

    /** `allocate` can name the entity it issues: it reuses an id, or the index of the
        entry it appends still fits in a `u16`. */
    predicate CanAllocate() {
      |availableIds| > 0 || |entries| < MaxEntries
    }

    /** `num_entries`: the number of ids ever issued; every reusable id is below it. */
    function NumEntries(): (n: nat)
      ensures WellFormed() ==> n <= MaxEntries && forall i | 0 <= i < |availableIds| :: availableIds[i] < n
    {
      |entries|
    }

    /** `is_alive`: the id was issued and its entry is live; the generation is not read. */
    predicate IsAlive(e: Entity)
      ensures IsAlive(e) ==> e.id < NumEntries()
    {
      e.id < |entries| && entries[e.id].isLive
    }

    /** `is_valid`: the id was issued, and its entry is live and of the handle's generation. */
    predicate IsValid(e: Entity)
      ensures IsValid(e) <==> IsAlive(e) && entries[e.id].generation == e.generation
    {
      e.id < |entries| && entries[e.id].isLive && entries[e.id].generation == e.generation
    }

    /** A handle whose id has moved on: its entry is of a later generation, or of the
        same generation and dead. Such a handle is never valid. */
    predicate IsStale(e: Entity) {
      && e.id < |entries|
      && (entries[e.id].generation > e.generation
          || (entries[e.id].generation == e.generation && !entries[e.id].isLive))
    }

    /** `allocate`: reuse the most recently freed id under its next generation, or else
        append a live entry of generation 0. */
    function Allocate(): (r: Allocation)
      requires WellFormed() && CanAllocate()
      ensures r.state.WellFormed()
      ensures r.state.IsValid(r.entity)
      ensures |availableIds| == 0 ==>
        && r.entity == Entity(|entries|, 0)
        && r.state.NumEntries() == NumEntries() + 1
        && r.state.availableIds == availableIds
      ensures |availableIds| > 0 ==>
        && r.entity.id == availableIds[|availableIds| - 1]
        && r.entity.generation == entries[r.entity.id].generation + 1
        && r.state.NumEntries() == NumEntries()
        && r.state.availableIds + [r.entity.id] == availableIds
      ensures forall i | 0 <= i < |entries| && i != r.entity.id :: r.state.entries[i] == entries[i]
    {
      if |availableIds| > 0 then
        var id := availableIds[|availableIds| - 1];
        var entry := entries[id].(isLive := true, generation := entries[id].generation + 1);
        Allocation(AllocatorState(entries[id := entry], availableIds[..|availableIds| - 1]),
                   Entity(id, entry.generation))
      else
        Allocation(AllocatorState(entries + [AllocatorEntry(true, 0)], availableIds),
                   Entity(|entries|, 0))
    }

    /** `deallocate`: an issued id has its entry marked dead and is pushed for reuse,
        whatever the handle's generation and whether or not the entry was live. */
    function Deallocate(e: Entity): (r: Deallocation)
      ensures WellFormed() ==> r.state.WellFormed()
      ensures r.result.Err? <==> e.id >= |entries|
      ensures r.result.Err? ==> r.result.error == OutOfBounds(e) && r.state == this
      ensures r.result.Ok? ==>
        && !r.state.IsAlive(e)
        && r.state.availableIds == availableIds + [e.id]
        && |r.state.entries| == |entries|
        && r.state.entries[e.id].generation == entries[e.id].generation
        && forall i | 0 <= i < |entries| && i != e.id :: r.state.entries[i] == entries[i]
    {
      if e.id < |entries| then
        Deallocation(AllocatorState(entries[e.id := entries[e.id].(isLive := false)], availableIds + [e.id]),
                     Ok(()))
      else
        Deallocation(this, Err(OutOfBounds(e)))
    }
  }

  /** `SparseSet<T>`: `allEntities` maps an entity id to a slot of the two dense
      vectors, which hold the entities that have the component and their values. */
  datatype SparseSet<C> = SparseSet(allEntities: seq<Option<nat>>, entitiesWithComponent: seq<Entity>, components: seq<C>)
  {
    /** The two dense vectors have the same length. */
    predicate Parallel() {
      |entitiesWithComponent| == |components|
    }

    /** No sparse slot names a dense slot. */
    predicate SparseUnset() {
      forall i | 0 <= i < |allEntities| :: allEntities[i].None?
    }
  }

  /** What `create_entity` produces. */
  datatype Created<C> = Created(world: WorldState<C>, entity: Entity)

  /** What `add_component_to_entity` produces: the new world and the call's outcome. */
  datatype Added<C> = Added(world: WorldState<C>, outcome: Outcome<Result<(), EntityComponentError>>)

  /** The contents of a `World`: its allocator and its registry of pools, one per
      component type. All pools hold the one component type `C`. */
  datatype WorldState<C> = WorldState(allocator: AllocatorState, components: map<TypeTag, SparseSet<C>>)
  {
    /** The invariants of a world: the allocator is well formed, and in every pool the
        dense vectors are parallel and the sparse vector is no longer than the allocator's
        entries (it was sized to them at registration, and they only grow). */
    predicate Consistent() {
      && allocator.WellFormed()
      && forall t | t in components ::
           components[t].Parallel() && |components[t].allEntities| <= allocator.NumEntries()
    }

    /** Every pool's sparse vector is all `None`. */
    predicate SparseNeverWritten() {
      forall t | t in components :: components[t].SparseUnset()
    }

    /** `create_entity`: allocate a handle; no pool learns of it. */
    function CreateEntity(): (r: Created<C>)
      requires allocator.WellFormed() && allocator.CanAllocate()
      ensures Allocation(r.world.allocator, r.entity) == allocator.Allocate()
      ensures r.world.allocator.IsValid(r.entity)
      ensures r.world.components == components
      ensures Consistent() ==> r.world.Consistent()
    {
      var a := allocator.Allocate();
      Created(WorldState(a.state, components), a.entity)
    }

    /** `destroy_entity`: deallocate, discarding the error; pools are left as they are. */
    function DestroyEntity(e: Entity): (w: WorldState<C>)
      ensures w.allocator == allocator.Deallocate(e).state
      ensures e.id >= allocator.NumEntries() ==> w == this
      ensures w.components == components
      ensures Consistent() ==> w.Consistent()
    {
      WorldState(allocator.Deallocate(e).state, components)
    }

    /** `register_component`: install an empty pool whose sparse vector has one `None`
        per allocator entry, replacing any pool registered under the same tag. */
    function RegisterComponent(t: TypeTag): (w: WorldState<C>)
      ensures w.allocator == allocator
      ensures t in w.components
      ensures |w.components[t].allEntities| == allocator.NumEntries()
      ensures w.components[t].SparseUnset()
      ensures w.components[t].entitiesWithComponent == [] && w.components[t].components == []
      ensures w.components == components[t := w.components[t]]
      ensures Consistent() ==> w.Consistent()
      ensures SparseNeverWritten() ==> w.SparseNeverWritten()
    {
      WorldState(allocator, components[t := SparseSet(seq(allocator.NumEntries(), _ => None), [], [])])
    }

    /** `get_component_pool`: the pool registered under `t`, if any. */
    function GetComponentPool(t: TypeTag): (r: Result<SparseSet<C>, EntityComponentError>)
      ensures r.Err? <==> t !in components
      ensures r.Err? ==> r.error == UnregisteredComponent(t)
      ensures r.Ok? ==> r.value == components[t]
    {
      if t in components then Ok(components[t]) else Err(UnregisteredComponent(t))
    }

    /** `get_all_instances_of_component`: the dense component values of the pool for `t`. */
    function GetAllInstancesOfComponent(t: TypeTag): (r: Result<seq<C>, EntityComponentError>)
      ensures r.Err? <==> t !in components
      ensures r.Err? ==> r.error == UnregisteredComponent(t)
      ensures r.Ok? ==> r.value == components[t].components
    {
      match GetComponentPool(t)
      case Ok(pool) => Ok(pool.components)
      case Err(error) => Err(error)
    }

    /** The checks the component operations make before reading a sparse slot: the
        handle first, then the type. */
    function CheckedPool(t: TypeTag, e: Entity): (r: Result<SparseSet<C>, EntityComponentError>)
      ensures r.Err? <==> !allocator.IsValid(e) || t !in components
      ensures !allocator.IsValid(e) ==> r.error == EntityComponentError.InvalidEntity(e)
      ensures allocator.IsValid(e) && t !in components ==> r.error == UnregisteredComponent(t)
      ensures r.Ok? ==> r.value == components[t]
    {
      if !allocator.IsValid(e) then Err(EntityComponentError.InvalidEntity(e))
      else GetComponentPool(t)
    }

    /** `entity_has_component`. Reading the sparse slot of an id the pool was never
        sized for is an index out of range: a panic. */
    function EntityHasComponent(t: TypeTag, e: Entity): (r: Outcome<Result<bool, EntityComponentError>>)
      ensures CheckedPool(t, e).Err? ==> r == Returned(Err(CheckedPool(t, e).error))
      ensures r.Panicked? <==> CheckedPool(t, e).Ok? && e.id >= |components[t].allEntities|
      ensures r.Returned? && r.value.Ok? ==> r.value.value == components[t].allEntities[e.id].Some?
      ensures CheckedPool(t, e).Ok? && e.id < |components[t].allEntities| ==>
        r == Returned(Ok(components[t].allEntities[e.id].Some?))
    {
      match CheckedPool(t, e)
      case Err(error) => Returned(Err(error))
      case Ok(pool) =>
        if e.id < |pool.allEntities| then Returned(Ok(pool.allEntities[e.id].Some?)) else Panicked
    }

    /** `get_component_from_entity`: the component in the dense slot the sparse slot
        names, or `None` when the slot is empty. An id past the sparse vector, or a slot
        past the dense vector, panics. */
    function GetComponentFromEntity(t: TypeTag, e: Entity): (r: Outcome<Result<Option<C>, EntityComponentError>>)
      ensures CheckedPool(t, e).Err? ==> r == Returned(Err(CheckedPool(t, e).error))
      ensures CheckedPool(t, e).Ok? && e.id >= |components[t].allEntities| ==> r.Panicked?
      ensures r.Returned? && r.value.Ok? ==>
        && e.id < |components[t].allEntities|
        && (r.value.value.None? <==> components[t].allEntities[e.id].None?)
        && (r.value.value.Some? ==>
              var k := components[t].allEntities[e.id].value;
              k < |components[t].components| && r.value.value.value == components[t].components[k])
      ensures CheckedPool(t, e).Ok? && e.id < |components[t].allEntities| ==>
        && (r.Panicked? <==>
              components[t].allEntities[e.id].Some? &&
              components[t].allEntities[e.id].value >= |components[t].components|)
        && (r.Returned? ==> r.value.Ok?)
    {
      match CheckedPool(t, e)
      case Err(error) => Returned(Err(error))
      case Ok(pool) =>
        if e.id >= |pool.allEntities| then Panicked
        else match pool.allEntities[e.id]
          case None => Returned(Ok(None))
          case Some(k) => if k < |pool.components| then Returned(Ok(Some(pool.components[k]))) else Panicked
    }

    /** `add_component_to_entity`: when the sparse slot is empty, push the entity and
        the component onto the dense vectors; the sparse slot itself is not written. */
    function AddComponentToEntity(t: TypeTag, e: Entity, c: C): (r: Added<C>)
      ensures CheckedPool(t, e).Err? ==> r == Added(this, Returned(Err(CheckedPool(t, e).error)))
      ensures r.outcome.Panicked? <==> CheckedPool(t, e).Ok? && e.id >= |components[t].allEntities|
      ensures r.outcome.Panicked? ==> r.world == this
      ensures CheckedPool(t, e).Ok? && e.id < |components[t].allEntities| ==> r.outcome == Returned(Ok(()))
      ensures r.outcome.Returned? && r.outcome.value.Ok? ==>
        && r.outcome.value == Ok(())
        && r.world.allocator == allocator
        && t in components && t in r.world.components
        && r.world.components == components[t := r.world.components[t]]
        && r.world.components[t].allEntities == components[t].allEntities
        && (components[t].allEntities[e.id].Some? ==> r.world == this)
        && (components[t].allEntities[e.id].None? ==>
              && r.world.components[t].entitiesWithComponent == components[t].entitiesWithComponent + [e]
              && r.world.components[t].components == components[t].components + [c])
      ensures Consistent() ==> r.world.Consistent()
      ensures SparseNeverWritten() ==> r.world.SparseNeverWritten()
    {
      match CheckedPool(t, e)
      case Err(error) => Added(this, Returned(Err(error)))
      case Ok(pool) =>
        if e.id >= |pool.allEntities| then Added(this, Panicked)
        else match pool.allEntities[e.id]
          case Some(_) => Added(this, Returned(Ok(())))
          case None =>
            var grown := pool.(entitiesWithComponent := pool.entitiesWithComponent + [e],
                               components := pool.components + [c]);
            Added(WorldState(allocator, components[t := grown]), Returned(Ok(())))
    }
  }

  /** The world `World::new` builds: no entries, no reusable ids, no pools. */
  function EmptyWorld<C>(): (w: WorldState<C>)
    ensures w.Consistent() && w.SparseNeverWritten()
    ensures w.allocator.NumEntries() == 0 && w.components == map[]
  {
    WorldState(AllocatorState([], []), map[])
  }

  /** `EntityAllocator`: the entries and the free list are vectors the methods update. */
  class EntityAllocator {
    var entries: seq<AllocatorEntry>
    var availableIds: seq<EntityId>

    function State(): AllocatorState
      reads this
    {
      AllocatorState(entries, availableIds)
    }

    ghost predicate Valid()
      reads this
    {
      State().WellFormed()
    }

    constructor ()
      ensures Valid()
      ensures State() == AllocatorState([], [])
    {
      entries := [];
      availableIds := [];
    }

    method Allocate() returns (e: Entity)
      requires Valid() && State().CanAllocate()
      modifies this
      ensures Valid()
      ensures Allocation(State(), e) == old(State()).Allocate()
    {
      if |availableIds| > 0 {
        var reusableId := availableIds[|availableIds| - 1];
        availableIds := availableIds[..|availableIds| - 1];
        var reusableEntry := entries[reusableId];
        reusableEntry := reusableEntry.(isLive := true);
        reusableEntry := reusableEntry.(generation := reusableEntry.generation + 1);
        entries := entries[reusableId := reusableEntry];
        e := Entity(reusableId, reusableEntry.generation);
      } else {
        entries := entries + [AllocatorEntry(true, 0)];
        e := Entity(|entries| - 1, 0);
      }
    }

    method Deallocate(e: Entity) returns (r: Result<(), EntityError>)
      requires Valid()
      modifies this
      ensures Valid()
      ensures Deallocation(State(), r) == old(State()).Deallocate(e)
    {
      if e.id < |entries| {
        entries := entries[e.id := entries[e.id].(isLive := false)];
        availableIds := availableIds + [e.id];
        r := Ok(());
      } else {
        r := Err(OutOfBounds(e));
      }
    }

    function IsAlive(e: Entity): (b: bool)
      reads this
      ensures b <==> e.id < NumEntries() && entries[e.id].isLive
    {
      State().IsAlive(e)
    }

    function IsValid(e: Entity): (b: bool)
      reads this
      ensures b <==> IsAlive(e) && entries[e.id].generation == e.generation
    {
      State().IsValid(e)
    }

    function NumEntries(): (n: nat)
      reads this
      ensures n == State().NumEntries()
    {
      |entries|
    }
  }

  /** `World`: it owns its allocator and a registry of pools, a map the methods replace
      entries of. */
  class World<C> {
    const entityAllocator: EntityAllocator
    var components: map<TypeTag, SparseSet<C>>

    function State(): WorldState<C>
      reads this, entityAllocator
    {
      WorldState(entityAllocator.State(), components)
    }

    ghost predicate Valid()
      reads this, entityAllocator
    {
      State().Consistent()
    }

    constructor ()
      ensures Valid() && fresh(entityAllocator)
      ensures State() == EmptyWorld()
    {
      entityAllocator := new EntityAllocator();
      components := map[];
    }

    method CreateEntity() returns (e: Entity)
      requires Valid() && State().allocator.CanAllocate()
      modifies entityAllocator
      ensures Valid()
      ensures Created(State(), e) == old(State()).CreateEntity()
    {
      e := entityAllocator.Allocate();
    }

    method DestroyEntity(e: Entity)
      requires Valid()
      modifies entityAllocator
      ensures Valid()
      ensures State() == old(State()).DestroyEntity(e)
    {
      // Both errors are only printed.
      var result := entityAllocator.Deallocate(e);
    }

    method RegisterComponent(t: TypeTag)
      requires Valid()
      modifies this
      ensures Valid()
      ensures State() == old(State()).RegisterComponent(t)
    {
      var pool := SparseSet(seq(entityAllocator.NumEntries(), _ => None), [], []);
      components := components[t := pool];
    }

    function GetComponentPool(t: TypeTag): (r: Result<SparseSet<C>, EntityComponentError>)
      reads this, entityAllocator
      ensures r.Err? <==> t !in components
      ensures r.Ok? ==> r.value == components[t]
    {
      State().GetComponentPool(t)
    }

    function GetAllInstancesOfComponent(t: TypeTag): (r: Result<seq<C>, EntityComponentError>)
      reads this, entityAllocator
      ensures r.Err? <==> t !in components
      ensures r.Ok? ==> r.value == components[t].components
    {
      State().GetAllInstancesOfComponent(t)
    }

    function EntityHasComponent(t: TypeTag, e: Entity): (r: Outcome<Result<bool, EntityComponentError>>)
      reads this, entityAllocator
      ensures !entityAllocator.IsValid(e) ==> r == Returned(Err(EntityComponentError.InvalidEntity(e)))
      ensures entityAllocator.IsValid(e) && t in components && e.id < |components[t].allEntities| ==>
        r == Returned(Ok(components[t].allEntities[e.id].Some?))
    {
      State().EntityHasComponent(t, e)
    }

    function GetComponentFromEntity(t: TypeTag, e: Entity): (r: Outcome<Result<Option<C>, EntityComponentError>>)
      reads this, entityAllocator
      ensures !entityAllocator.IsValid(e) ==> r == Returned(Err(EntityComponentError.InvalidEntity(e)))
      ensures entityAllocator.IsValid(e) && t in components && e.id < |components[t].allEntities| ==>
        r == match components[t].allEntities[e.id]
          case None => Returned(Ok(None))
          case Some(k) =>
            if k < |components[t].components| then Returned(Ok(Some(components[t].components[k]))) else Panicked
    {
      State().GetComponentFromEntity(t, e)
    }

    method AddComponentToEntity(t: TypeTag, e: Entity, c: C) returns (r: Outcome<Result<(), EntityComponentError>>)
      requires Valid()
      modifies this
      ensures Valid()
      ensures Added(State(), r) == old(State()).AddComponentToEntity(t, e, c)
    {
      if !entityAllocator.IsValid(e) {
        return Returned(Err(EntityComponentError.InvalidEntity(e)));
      }
      if t !in components {
        return Returned(Err(UnregisteredComponent(t)));
      }
      var pool := components[t];
      if e.id >= |pool.allEntities| {
        return Panicked;
      }
      match pool.allEntities[e.id]
      case Some(_) =>
        r := Returned(Ok(()));
      case None =>
        pool := pool.(entitiesWithComponent := pool.entitiesWithComponent + [e]);
        pool := pool.(components := pool.components + [c]);
        components := components[t := pool];
        r := Returned(Ok(()));
    }
  }
}
