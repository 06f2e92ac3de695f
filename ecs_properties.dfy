/** Properties of the entity runtime of `src/ecs.rs` that relate several calls: handle
    reuse, the life of a stale handle over any run of calls, and what the world's
    operations do and do not keep track of. */
module EcsProperties {
  import opened Wrappers
  import opened Ecs

  // ---------------------------------------------------------------------------
  // Handles and the allocator
  // ---------------------------------------------------------------------------

  /** `is_alive` ignores the generation: an id is alive exactly when some generation
      of it is valid. */
  lemma AliveIffSomeGenerationValid(s: AllocatorState, e: Entity)
    ensures s.IsAlive(e) <==> exists g: nat :: s.IsValid(Entity(e.id, g))
  {
    if s.IsAlive(e) {
      assert s.IsValid(Entity(e.id, s.entries[e.id].generation));
    }
  }

  /** At most one generation of an id is valid at a time. */
  lemma ValidHandleIsUnique(s: AllocatorState, e1: Entity, e2: Entity)
    requires s.IsValid(e1) && s.IsValid(e2) && e1.id == e2.id
    ensures e1 == e2
  {
  }

  /** A stale handle is never valid, and a valid one is never stale. */
  lemma StaleIsNotValid(s: AllocatorState, e: Entity)
    ensures s.IsStale(e) ==> !s.IsValid(e)
    ensures s.IsValid(e) ==> !s.IsStale(e)
  {
  }

  /** `allocate` leaves every valid handle valid, except one whose id it reuses. */
  lemma AllocateKeepsOtherHandlesValid(s: AllocatorState, e: Entity)
    requires s.WellFormed() && s.CanAllocate() && s.IsValid(e)
    requires |s.availableIds| > 0 ==> s.availableIds[|s.availableIds| - 1] != e.id
    ensures s.Allocate().state.IsValid(e)
  {
  }

  /** Freeing a valid handle and allocating again reuses its id under the next
      generation: the new handle is valid and the old one is not. */
  lemma DeallocateThenAllocate(s: AllocatorState, e: Entity)
    requires s.WellFormed() && s.IsValid(e)
    ensures var d := s.Deallocate(e);
            && d.result == Ok(())
            && !d.state.IsValid(e)
            && d.state.CanAllocate()
            && var a := d.state.Allocate();
               && a.entity == Entity(e.id, e.generation + 1)
               && a.state.IsValid(a.entity)
               && !a.state.IsValid(e)
               && a.state.NumEntries() == s.NumEntries()
  {
  }

  /** The free list is a stack: with ids 0, 1 and 2 issued, freeing 1 makes the next
      handle issued id 1 of generation 1. */
  lemma RecyclingOrderExample()
    ensures var a0 := AllocatorState([], []).Allocate();
            var a1 := a0.state.Allocate();
            var a2 := a1.state.Allocate();
            var d := a2.state.Deallocate(a1.entity);
            var a3 := d.state.Allocate();
            && [a0.entity.id, a1.entity.id, a2.entity.id] == [0, 1, 2]
            && a3.entity == Entity(1, 1)
  {
  }

  /** `deallocate` does not look at the handle's generation: freeing a stale handle
      kills the entity that now holds its id. */
  lemma StaleDeallocateKillsOccupant(s: AllocatorState, stale: Entity, current: Entity)
    requires s.IsValid(current) && stale.id == current.id && stale.generation != current.generation
    ensures !s.IsValid(stale)
    ensures s.Deallocate(stale).result == Ok(())
    ensures !s.Deallocate(stale).state.IsValid(current)
  {
  }

  /** `deallocate` does not look at liveness either: freeing a handle twice pushes its id
      twice, and the next two allocations both issue that id, so the second silently
      invalidates the first although nobody freed it. */
  lemma DoubleDeallocateIssuesIdTwice(s: AllocatorState, e: Entity)
    requires s.WellFormed() && e.id < s.NumEntries()
    ensures var d2 := s.Deallocate(e).state.Deallocate(e).state;
            && d2.availableIds == s.availableIds + [e.id, e.id]
            && var a1 := d2.Allocate();
               && a1.state.CanAllocate()
               && var a2 := a1.state.Allocate();
                  && a1.entity.id == e.id && a2.entity.id == e.id
                  && a2.entity.generation == a1.entity.generation + 1
                  && a2.state.IsValid(a2.entity)
                  && !a2.state.IsValid(a1.entity)
  {
  }

  /** `allocate` keeps a stale handle stale: generations only grow. */
  lemma AllocateKeepsStale(s: AllocatorState, e: Entity)
    requires s.WellFormed() && s.CanAllocate() && s.IsStale(e)
    ensures s.Allocate().state.IsStale(e)
  {
  }

  /** `deallocate` keeps a stale handle stale. */
  lemma DeallocateKeepsStale(s: AllocatorState, d: Entity, e: Entity)
    requires s.IsStale(e)
    ensures s.Deallocate(d).state.IsStale(e)
  {
  }

  /** One call on an allocator. */
  datatype AllocatorCall = Alloc | Dealloc(entity: Entity)

  /** The allocator after a run of calls. A run stops at an `allocate` that cannot name
      the entity it would issue. */
  function RunAllocator(s: AllocatorState, calls: seq<AllocatorCall>): (r: AllocatorState)
    requires s.WellFormed()
    ensures r.WellFormed()
    ensures r.NumEntries() >= s.NumEntries()
    decreases |calls|
  {
    if calls == [] then s
    else match calls[0]
      case Alloc =>
        if s.CanAllocate() then RunAllocator(s.Allocate().state, calls[1..]) else s
      case Dealloc(e) =>
        RunAllocator(s.Deallocate(e).state, calls[1..])
  }

  /** A stale handle stays stale whatever calls follow. */
  lemma {:induction false} StaleStaysStale(s: AllocatorState, e: Entity, calls: seq<AllocatorCall>)
    requires s.WellFormed() && s.IsStale(e)
    ensures RunAllocator(s, calls).IsStale(e)
    decreases |calls|
  {
    if calls != [] {
      match calls[0]
      case Alloc =>
        if s.CanAllocate() {
          AllocateKeepsStale(s, e);
          StaleStaysStale(s.Allocate().state, e, calls[1..]);
        }
      case Dealloc(d) =>
        DeallocateKeepsStale(s, d, e);
        StaleStaysStale(s.Deallocate(d).state, e, calls[1..]);
    }
  }

  /** Once a valid handle is freed it is never valid again, whatever calls follow. */
  lemma FreedHandleNeverValidAgain(s: AllocatorState, e: Entity, calls: seq<AllocatorCall>)
    requires s.WellFormed() && s.IsValid(e)
    ensures !RunAllocator(s.Deallocate(e).state, calls).IsValid(e)
  {
    var d := s.Deallocate(e).state;
    assert d.IsStale(e);
    StaleStaysStale(d, e, calls);
    StaleIsNotValid(RunAllocator(d, calls), e);
  }

  // ---------------------------------------------------------------------------
  // The world
  // ---------------------------------------------------------------------------

  /** `entity_has_component` and `get_component_from_entity` make the same checks, panic
      on the same ids, and, when both return a value, agree on whether there is one. */
  lemma HasComponentAgreesWithGet<C>(w: WorldState<C>, t: TypeTag, e: Entity)
    ensures w.EntityHasComponent(t, e).Returned? && w.EntityHasComponent(t, e).value.Err? <==>
            w.GetComponentFromEntity(t, e).Returned? && w.GetComponentFromEntity(t, e).value.Err?
    ensures w.EntityHasComponent(t, e).Returned? && w.EntityHasComponent(t, e).value.Err? ==>
            w.EntityHasComponent(t, e).value.error == w.GetComponentFromEntity(t, e).value.error
    ensures w.EntityHasComponent(t, e).Returned? && w.EntityHasComponent(t, e).value.Ok? &&
            w.GetComponentFromEntity(t, e).Returned? && w.GetComponentFromEntity(t, e).value.Ok? ==>
            w.EntityHasComponent(t, e).value.value == w.GetComponentFromEntity(t, e).value.value.Some?
    ensures w.GetComponentFromEntity(t, e).Panicked? && !w.EntityHasComponent(t, e).Panicked? ==>
            var k := w.components[t].allEntities[e.id].value; k >= |w.components[t].components|
  {
  }

  /** `create_entity` does not grow the pools: for an entity that takes a fresh id after
      its type was registered, every component operation indexes past the sparse vector
      and panics. */
  lemma ComponentAccessAfterRegistrationPanics<C>(w: WorldState<C>, t: TypeTag, c: C)
    requires w.Consistent() && t in w.components
    requires w.allocator.availableIds == [] && w.allocator.CanAllocate()
    ensures var r := w.CreateEntity();
            && r.world.EntityHasComponent(t, r.entity).Panicked?
            && r.world.GetComponentFromEntity(t, r.entity).Panicked?
            && r.world.AddComponentToEntity(t, r.entity, c).outcome.Panicked?
  {
  }

  /** `add_component_to_entity` never records the dense slot in the sparse vector, so a
      second add of the same type to the same entity appends a second value, and
      neither can be read back. */
  lemma SecondAddAppendsAgain<C>(w: WorldState<C>, t: TypeTag, e: Entity, c1: C, c2: C)
    requires w.Consistent() && w.SparseNeverWritten()
    requires w.allocator.IsValid(e) && t in w.components && e.id < |w.components[t].allEntities|
    ensures var r1 := w.AddComponentToEntity(t, e, c1);
            var r2 := r1.world.AddComponentToEntity(t, e, c2);
            && r1.outcome == Returned(Ok(())) && r2.outcome == Returned(Ok(()))
            && r2.world.components[t].entitiesWithComponent == w.components[t].entitiesWithComponent + [e, e]
            && r2.world.components[t].components == w.components[t].components + [c1, c2]
            && r2.world.GetComponentFromEntity(t, e) == Returned(Ok(None))
            && r2.world.EntityHasComponent(t, e) == Returned(Ok(false))
  {
  }

  /** One call on a world. */
  datatype WorldCall<C> =
    | Create
    | Destroy(entity: Entity)
    | Register(tag: TypeTag)
    | Add(tag: TypeTag, entity: Entity, component: C)

  /** The world after a run of calls. A run stops at a call that panics, and at a
      `create_entity` that cannot name the entity it would issue. */
  function RunWorld<C>(w: WorldState<C>, calls: seq<WorldCall<C>>): (r: WorldState<C>)
    requires w.Consistent()
    ensures r.Consistent()
    ensures w.SparseNeverWritten() ==> r.SparseNeverWritten()
    decreases |calls|
  {
    if calls == [] then w
    else match calls[0]
      case Create =>
        if w.allocator.CanAllocate() then RunWorld(w.CreateEntity().world, calls[1..]) else w
      case Destroy(e) =>
        RunWorld(w.DestroyEntity(e), calls[1..])
      case Register(t) =>
        RunWorld(w.RegisterComponent(t), calls[1..])
      case Add(t, e, c) =>
        var r := w.AddComponentToEntity(t, e, c);
        if r.outcome.Panicked? then w else RunWorld(r.world, calls[1..])
  }

  /** In every world a program can reach from `World::new`, no entity has a component:
      `entity_has_component` never answers `true` and `get_component_from_entity` never
      returns a value. */
  lemma NoComponentIsEverRetrieved<C>(calls: seq<WorldCall<C>>, t: TypeTag, e: Entity)
    ensures var w := RunWorld(EmptyWorld(), calls);
            && w.EntityHasComponent(t, e) != Returned(Ok(true))
            && var g := w.GetComponentFromEntity(t, e);
               !(g.Returned? && g.value.Ok? && g.value.value.Some?)
  {
  }
}
