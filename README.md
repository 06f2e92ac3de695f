# minigame entity runtime and byte grid, modelled in Dafny

This project models two sequential parts of the `minigame` Rust game:

- **The entity runtime of `src/ecs.rs`.**
  - An `EntityAllocator` issues generational handles `Entity { id, generation }`. It keeps one `{is_live, generation}` entry per id it has ever issued, and a LIFO stack of ids that may be reused.
  - A `SparseSet<T>` is the pool of one component type. It has a sparse vector `all_entities` (entity id → optional dense slot) and two parallel dense vectors, `entities_with_component` and `components`.
  - A `World` owns the allocator and a registry of pools keyed by component type. It creates and destroys entities, registers component types, and offers checked `has`/`get`/`add` operations.
- **The byte grid `u8::Matrix` of `src/linalg.rs`.** It is a `width × height` grid stored row by row in one byte vector. It has a size-checked constructor, bounds-checked `get`/`get_mut`/`set`, row slicing and iteration.

Files:

- `wrappers.dfy` (module `Wrappers`) holds `Option` and `Result`. It also holds `Outcome`, which is either `Returned(value)` or `Panicked`. `Panicked` stands for a Rust panic, such as an index out of range or a failed `unwrap`.
- `ecs.dfy` (module `Ecs`) holds the value types `AllocatorState`, `SparseSet` and `WorldState`. Their member functions are the specification of each operation. The classes `EntityAllocator` and `World` keep the same state in fields that their methods update in place. Each method's `ensures` says that the method moves its object exactly as the matching member function says.
- `ecs_properties.dfy` (module `EcsProperties`) holds lemmas that relate several calls: handle reuse, stale handles over any run of calls, and the divergences listed below.
- `linalg.dfy` (module `Linalg`) holds the class `Matrix`. Its `data` is an `array<u8>` that `Set` writes in place. The pure reads are functions over it. The module also has the row-major index arithmetic (in range, injective, onto) and a row-concatenation lemma.

The component type is one type parameter `C` shared by all pools. The registry is a `map<TypeTag, SparseSet<C>>` keyed by a type name.

### Divergences from the documented design, modelled as written

- **The sparse slot is never written.** `add_component_to_entity` (src/ecs.rs:245-253) pushes onto both dense vectors but never records the dense slot in `all_entities`. As a result:
  - In every world reachable from `World::new`, `entity_has_component` never answers `true`, and `get_component_from_entity` never returns a value (`NoComponentIsEverRetrieved`).
  - A second add of the same type appends a second value (`SecondAddAppendsAgain`).
- **`deallocate` ignores generation and liveness** (src/ecs.rs:67-76).
  - Freeing a stale handle kills the entity that now holds its id (`StaleDeallocateKillsOccupant`).
  - Freeing a handle twice pushes its id twice. The next two allocations then both issue that id, so the second silently invalidates the first (`DoubleDeallocateIssuesIdTwice`).
- **`create_entity` does not grow any pool** (src/ecs.rs:134-137). An entity that takes a fresh id after its type was registered has no sparse slot. Every component operation on it indexes past `all_entities` and panics (`ComponentAccessAfterRegistrationPanics`). The model gives this case an explicit `Panicked` outcome.

## Model

| member | source | states |
|---|---|---|
| `Ecs.AllocatorState.Allocate` | src/ecs.rs:50-65 | The handle issued is valid. With an empty free list it is `(old entry count, 0)` and the entry count grows by one. Otherwise it is the top of the free list, popped, at its entry's generation + 1, and the entry count is unchanged. No other entry changes, and well-formedness is kept. |
| `Ecs.AllocatorState.IsAlive` | src/ecs.rs:78-83 | Defined as: the id was issued and its entry is live. The generation is not read. An alive id is below the entry count. |
| `Ecs.AllocatorState.IsValid` | src/ecs.rs:85-95 | Defined as: the id was issued, and its entry is live and of the handle's generation. So a valid handle is alive with the entry's generation. |
| `Ecs.AllocatorState.NumEntries` | src/ecs.rs:97-99 | The number of entries, that is of ids ever issued. In a well-formed state it is at most `0xFFFF` and every reusable id is below it. |
| `Ecs.AllocatorState.Deallocate` | src/ecs.rs:67-76 | It fails with `OutOfBounds(e)` exactly when the id was never issued, and then the state is unchanged. Otherwise it returns `Ok`, the id is no longer alive, the id is pushed onto the free list, the generation is kept and no other entry changes. |
| `Ecs.EntityAllocator.constructor` | src/ecs.rs:44-49 | A new allocator has no entries and no reusable ids. |
| `Ecs.EntityAllocator.Allocate` | src/ecs.rs:50-65 | The in-place update of the entry and the free list yields exactly `AllocatorState.Allocate` of the old state, and the invariant is kept. |
| `Ecs.EntityAllocator.Deallocate` | src/ecs.rs:67-76 | The in-place update yields exactly `AllocatorState.Deallocate` of the old state, result included. |
| `Ecs.EntityAllocator.IsAlive` | src/ecs.rs:78-83 | It delegates to `AllocatorState.IsAlive` of the current state: the id is below the entry count and its entry is live. |
| `Ecs.EntityAllocator.IsValid` | src/ecs.rs:85-95 | It delegates to `AllocatorState.IsValid` of the current state: the id is alive and its entry has the handle's generation. |
| `Ecs.EntityAllocator.NumEntries` | src/ecs.rs:97-99 | The length of the entries field, which is `AllocatorState.NumEntries` of the current state. |
| `EcsProperties.AliveIffSomeGenerationValid` | src/ecs.rs:78-95 | `is_alive` ignores the generation: an id is alive iff some generation of it is valid. |
| `EcsProperties.ValidHandleIsUnique` | src/ecs.rs:85-95 | Two valid handles with the same id are equal. |
| `EcsProperties.StaleIsNotValid` | src/ecs.rs:85-95 | A handle whose entry has moved past it is not valid, and a valid handle is not stale. |
| `EcsProperties.AllocateKeepsOtherHandlesValid` | src/ecs.rs:50-65 | `allocate` keeps every valid handle valid, except one whose id it pops. |
| `EcsProperties.DeallocateThenAllocate` | src/ecs.rs:50-76 | After freeing a valid `e`, the next allocation returns `(e.id, e.generation + 1)`. The new handle is valid, `e` is not, and the entry count is unchanged. |
| `EcsProperties.RecyclingOrderExample` | src/ecs.rs:50-76 | Issue ids 0, 1, 2 and free 1: the next handle is id 1 of generation 1. |
| `EcsProperties.StaleDeallocateKillsOccupant` | src/ecs.rs:67-76 | Freeing a stale handle succeeds and invalidates the current holder of its id. |
| `EcsProperties.DoubleDeallocateIssuesIdTwice` | src/ecs.rs:50-76 | Freeing twice pushes the id twice. The next two allocations both return that id, and the second invalidates the first. |
| `EcsProperties.AllocateKeepsStale` | src/ecs.rs:50-57 | `allocate` keeps a stale handle stale. |
| `EcsProperties.DeallocateKeepsStale` | src/ecs.rs:67-72 | `deallocate` keeps a stale handle stale. |
| `EcsProperties.RunAllocator` | src/ecs.rs:43-100 | Any run of allocate and deallocate calls keeps the allocator well formed and never shrinks the entry count. |
| `EcsProperties.StaleStaysStale` | src/ecs.rs:50-76 | A stale handle stays stale after any run of calls. |
| `EcsProperties.FreedHandleNeverValidAgain` | src/ecs.rs:67-95 | Once a valid handle is freed, it is never valid again, whatever calls follow. |
| `Ecs.EmptyWorld` | src/ecs.rs:127-132 | `World::new` has no entries and no pools, and is consistent. |
| `Ecs.World.constructor` | src/ecs.rs:127-132 | A new world's state is the empty world, with a fresh allocator. |
| `Ecs.WorldState.CreateEntity` | src/ecs.rs:134-137 | It allocates a valid handle and leaves every pool exactly as it was. Consistency is kept. |
| `Ecs.World.CreateEntity` | src/ecs.rs:134-137 | The method's new state and handle are `WorldState.CreateEntity` of the old state. |
| `Ecs.WorldState.DestroyEntity` | src/ecs.rs:139-149 | It deallocates and discards the error: an out-of-range id changes nothing. Pools are left untouched. |
| `Ecs.World.DestroyEntity` | src/ecs.rs:139-149 | The method's new state is `WorldState.DestroyEntity` of the old state. |
| `Ecs.WorldState.RegisterComponent` | src/ecs.rs:151-159 | It installs a pool with one `None` per allocator entry and both dense vectors empty. This replaces any earlier pool of that type. Other pools and the allocator are unchanged. |
| `Ecs.World.RegisterComponent` | src/ecs.rs:151-159 | The method's new state is `WorldState.RegisterComponent` of the old state. |
| `Ecs.WorldState.GetComponentPool` | src/ecs.rs:161-166 | It returns the registered pool, or `UnregisteredComponent(t)` exactly when none is registered. |
| `Ecs.WorldState.GetAllInstancesOfComponent` | src/ecs.rs:175-180 | It returns the pool's dense component values, or `UnregisteredComponent(t)` exactly when none is registered. |
| `Ecs.World.GetComponentPool` | src/ecs.rs:161-166 | It delegates to `WorldState.GetComponentPool`: the registered pool, or an error exactly when the type has no pool. |
| `Ecs.World.GetAllInstancesOfComponent` | src/ecs.rs:175-180 | It delegates to `WorldState.GetAllInstancesOfComponent`: the pool's dense values, or an error exactly when the type has no pool. |
| `Ecs.World.EntityHasComponent` | src/ecs.rs:189-199 | It delegates to `WorldState.EntityHasComponent`. An invalid handle gives `InvalidEntity`. A valid handle, a registered type and an in-range id give `Ok(slot.is_some())`. |
| `Ecs.World.GetComponentFromEntity` | src/ecs.rs:201-216 | It delegates to `WorldState.GetComponentFromEntity`. An invalid handle gives `InvalidEntity`. With a valid handle, a registered type and an in-range id: an empty slot gives `Ok(None)`, a slot naming an in-range dense index gives that component, and any other slot panics. |
| `Ecs.WorldState.CheckedPool` | src/ecs.rs:193-197 | The handle is checked before the type. An invalid handle gives `InvalidEntity`. Otherwise an unregistered type gives `UnregisteredComponent`. Otherwise the pool is returned. |
| `Ecs.WorldState.EntityHasComponent` | src/ecs.rs:189-199 | It returns the checks' error, if any. It panics exactly when the id is past the sparse vector. When the checks pass and the id is in range, it returns exactly `Ok(slot.is_some())`. |
| `Ecs.WorldState.GetComponentFromEntity` | src/ecs.rs:201-216 | It returns the checks' error, if any, and panics past the sparse vector. When the checks pass and the id is in range, it panics exactly when the slot names a dense index past the dense vector, and otherwise returns `Ok`. It answers `None` iff the slot is empty. `Some(v)` means the slot names an in-range dense slot holding `v`. |
| `Ecs.WorldState.AddComponentToEntity` | src/ecs.rs:235-254 | Errors and panics change nothing. When the checks pass and the id is in range, it returns exactly `Ok(())`. The sparse vector is then unchanged. A set slot changes nothing. An empty slot appends the entity and the component to the dense vectors. Consistency is kept. |
| `Ecs.World.AddComponentToEntity` | src/ecs.rs:235-254 | The method's outcome and new state are `WorldState.AddComponentToEntity` of the old state. |
| `EcsProperties.HasComponentAgreesWithGet` | src/ecs.rs:189-216 | `has` and `get` report the same errors. When both return, `has` is `true` iff `get` returns a value. |
| `EcsProperties.ComponentAccessAfterRegistrationPanics` | src/ecs.rs:134-137 | For an entity created with a fresh id after its type was registered, `has`, `get` and `add` all panic. |
| `EcsProperties.SecondAddAppendsAgain` | src/ecs.rs:245-253 | Two adds of one type to one entity both return `Ok` and append two values. Afterwards `get` still returns `None` and `has` still returns `false`. |
| `EcsProperties.RunWorld` | src/ecs.rs:126-255 | Any run of world calls keeps the world consistent, and keeps every sparse slot unset. |
| `EcsProperties.NoComponentIsEverRetrieved` | src/ecs.rs:235-253 | In every world reachable from `World::new`, `has` never answers `true` and `get` never returns a value. |
| `Linalg.RowInBounds` | src/linalg.rs:254-255 | For `y < height`, the slice of row `y` ends inside the data. |
| `Linalg.CellInBounds` | src/linalg.rs:236-237 | The position `y * width + x` of an in-grid cell is inside the data. |
| `Linalg.CellPositionInjective` | src/linalg.rs:237 | Distinct in-grid cells have distinct positions. |
| `Linalg.CellAtPosition` | src/linalg.rs:270-272 | Every data position `k` is the position of the cell `(k % width, k / width)`, which lies in the grid. |
| `Linalg.FlattenConsecutiveRows` | src/linalg.rs:274-279 | Consecutive `width`-long slices concatenate back to the prefix of the data they cover. |
| `Linalg.Matrix.constructor` | src/linalg.rs:184-194 | `new(w, h, d)` gives `size() == w * h`, and every cell reads `d`. |
| `Linalg.Matrix.FromVec` | src/linalg.rs:196-209 | It returns `SizeMismatch` iff the length is not `width * height`. Otherwise it returns a grid with that width, that height and those bytes. |
| `Linalg.Matrix.FromCells` | src/linalg.rs:204-208 | The grid built from the struct literal has that width, that height and exactly those bytes. |
| `Linalg.Matrix.IsValidIndex` | src/linalg.rs:223-229 | Defined as: `x < width` and `y < height`. A valid index has its position `y * width + x` below `width * height`. |
| `Linalg.Matrix.Size` | src/linalg.rs:219-221 | The size equals `width() * height()`. |
| `Linalg.Matrix.Get` | src/linalg.rs:231-238 | It returns `None` iff `x >= width` or `y >= height`. Otherwise it returns `Some(data[y * width + x])`. |
| `Linalg.Matrix.GetMut` | src/linalg.rs:240-247 | It has the same guard as `get`. In range it returns the position `y * width + x`, which lies in the data and holds the byte `get` reads. |
| `Linalg.Matrix.GetRowAsWritten` | src/linalg.rs:249-256 | It agrees with the corrected `GetRow` below `height` and returns `None` above `height`. At `y == height` it panics when `width > 0`, and returns `Some` of an empty row when `width == 0`. |
| `Linalg.Matrix.GetRow` | src/linalg.rs:249-256 | It returns `None` iff `y >= height`. Otherwise the row has `width` bytes, and its byte `x` is cell `(x, y)`. |
| `Linalg.GetRowPastLastRowPanics` | src/linalg.rs:253 | On a grid with non-empty rows, row `height` panics as written and is `None` under the corrected guard. |
| `Linalg.GetRowPastEmptyRowsIsEmpty` | src/linalg.rs:253-255 | On a grid with empty rows, row `height` is returned as `Some` of an empty row as written, and is `None` under the corrected guard. |
| `Linalg.Matrix.Set` | src/linalg.rs:259-268 | In range, cell `(x, y)` then reads `value` and every other cell is unchanged. Out of range nothing changes. Width, height and size are constants. |
| `Linalg.Matrix.Iter` | src/linalg.rs:270-272 | It yields `size()` bytes, and cell `(x, y)` is yielded at its own position. |
| `Linalg.IterVisitsEveryCell` | src/linalg.rs:270-272 | Byte `k` of `iter` is cell `(k % width, k / width)`. |
| `Linalg.Matrix.IterRows` | src/linalg.rs:274-279 | It yields exactly `height` rows, and row `i` is `get_row(i)`. |
| `Linalg.IterRowsConcatenateToData` | src/linalg.rs:274-279 | The rows yielded, concatenated in order, are the grid's data. |

## Findings

| source | as written | input that shows it | evidently intended | confidence | as-written member | corrected member |
|---|---|---|---|---|---|---|
| src/linalg.rs:253 | `get_row` returns `None` only for `y > height`. So `y == height` passes, and the slice `[height * width, height * width + width)` runs past the data. When `width == 0` the slice is empty instead, and `get_row(height)` returns `Some` of an empty row. | Any grid with `width > 0`, and `y = height` (a panic); any grid with `width == 0`, and `y = height` (`Some(&[])`) | The guard `y >= height`: every row past the last is `None` | not executed; high (the slice bound is past the data length whenever `width > 0`) | `Linalg.Matrix.GetRowAsWritten` | `Linalg.Matrix.GetRow` |

## Left out

- Rust's `AnyMap`, `TypeId` and downcasting. Pools are keyed by a type name, and every pool holds one component type `C`.
- `get_component_pool_mut`, `get_all_instances_of_component_mut` and `get_component_from_entity_mut` make the same lookups and checks as their shared counterparts, which model them. Writes made later through a returned `&mut` are not modelled.
- `Ecs.AllocatorState.Allocate`: it requires that the free list is non-empty or that fewer than `0xFFFF` entries exist. Beyond that bound, the source's `entries.len() as u16 - 1` no longer names the new entry, and the model does not give that wrap-around.
- Generations are `u64` in the source and unbounded `nat` here. The overflow of `generation += 1` is not modelled.
- `width * height` and `y * width + x` are `usize` products in the source, and unbounded here. Overflow is not modelled.
- The `println!` calls of `destroy_entity` are not modelled: the error is discarded. `EntityError::InvalidEntity` and `EntityComponentError::MissingComponent` are declared but never produced by the source.
- `iter` and `iter_rows` return lazy iterators in the source. They are modelled as the sequences they yield. `get_mut` returns a reference, modelled as the position of the cell in the data.
- `Linalg.Matrix.FromVec` copies the bytes into a fresh array, where `from_vec` takes ownership of the vector.
- `Width` and `Height` return the constant fields and carry no contract of their own.
- `u8::Vec2` and `u32::Vec2` are plain records with no behaviour.
- The `f32` vector math of `src/linalg.rs` is floating point.
- `src/main.rs`, `src/resources.rs`, `src/component.rs`, `src/bundle.rs` and `src/system.rs` are not part of this model. They are rendering, resource loading, data records, and callers of world operations that `src/ecs.rs` does not define.
