# Entity group (structure-of-arrays ECS) in Dafny

This project models `ecs::GroupOfEntities` and its cursor `ecs::Iterator` from
`ecs.h`. A group stores one sequence per component type plus a row counter
`m_size`. Row `i` of every sequence belongs to the same entity. Each mutator
must keep every sequence exactly `m_size` long.

- The variadic component pack is fixed at two generic types, `A` and `B`.
  `listA` and `listB` stand for the two `std::vector` bases. `size` stands for
  `m_size`.
- `Valid()` is the lockstep invariant: both sequences are `size` long.
- `Entity<A, B>` is a row value. In ecs.h, `Entity` is a bundle of
  references to one row; here it is read by value, and `getComponent<T>()` is
  the field of type `T`.
- `Iterator<A, B>` is a class. Prefix and postfix `++`/`--` update its
  `current` field in place. `+`/`-` return new cursors. `==`/`!=` compare the
  group reference and the index. Dereferencing gives the group's view of the
  row under the cursor.
- `addEntity()` appends `T{}` for every component type. Dafny cannot name a
  type's value-initialised element. So every group carries `defaultA` and
  `defaultB`, fixed when the group is constructed.
- `addSet` takes its group argument by value. The model copies that argument
  with the copy constructor `Copy` before reading from it. Appending a group
  onto itself therefore reads the rows it had on entry.
- The standard library's erase is `Vectors.Erase`. Erasing several times at
  one position is `Vectors.EraseRepeatedly`. `removeSubset` is proved against
  that function and then reduced to a slice by a lemma.

Where the code and its intent differ, the model follows the code and also
gives the corrected form:

- `getSubset` never sets the copy's row counter. It is modelled as written
  (`GetSubsetAsWritten`). The corrected form (`GetSubset`) sets the counter to
  `count`. See "## Findings".
- The whole-group `addSet(entities)` (ecs.h:150-156) does not compile.
  - It iterates over `this`, which is a pointer.
  - It adds `size`, which names the member function.
  So no as-written model exists. `AddAll` models the evident intent: a
  range-for over the by-value copy of `entities` that appends every row.
  `Scenarios.AddAllIsAddSetOfEveryRow` proves that it leaves a group in the
  same state as `AddSet` with `idx` 0 and `count` `entities.size`.
- The ranged `addSet` calls the non-const `get<T>` on a `const` parameter.
  It compiles only because the template is never instantiated. The model
  reads the copy's rows as the code evidently intends.

## Model

| member | source | states |
|---|---|---|
| `Vectors.Erase` | ecs.h:115 | erasing position `pos` shortens the sequence by one, keeps the elements before `pos` and moves every later element down by one |
| `Vectors.EraseRepeatedly` | ecs.h:122-123 | after `n` erasures at `pos`, with `pos + n` within the sequence, the sequence is `n` shorter |
| `Vectors.EraseRepeatedlyRemovesRange` | ecs.h:120-126 | `n` erasures at `pos` remove exactly the elements `[pos, pos + n)`, giving `s[..pos] + s[pos + n..]` |
| `Ecs.GroupOfEntities.constructor` | ecs.h:171 | a new group is valid, has no rows and has size 0 |
| `Ecs.GroupOfEntities.Copy` | ecs.h:142 | the by-value copy of a group has the same sequences, the same size and the same defaults |
| `Ecs.GroupOfEntities.Size` | ecs.h:128-130 | `size()` returns the row counter on any group, including one that breaks the invariant; on a group that keeps the invariant it equals the length of every component sequence |
| `Ecs.GroupOfEntities.GetA` | ecs.h:85-87 | `get<A>(idx)` is the `A` component of row `idx`, the element at `idx` of the `A` vector |
| `Ecs.GroupOfEntities.GetB` | ecs.h:85-87 | `get<B>(idx)` is the `B` component of row `idx`, the element at `idx` of the `B` vector |
| `Ecs.GroupOfEntities.GetEntity` | ecs.h:85-94 | the view of row `idx` holds, for each component type, what `get<T>(idx)` returns |
| `Ecs.GroupOfEntities.AddDefaultEntity` | ecs.h:96-100 | size grows by one; each sequence gains the value-initialised component at its end; earlier rows are unchanged; the new row reads back as the defaults |
| `Ecs.GroupOfEntities.AddEntity` | ecs.h:102-106 | size grows by one; each sequence gains the given value at its end; earlier rows are unchanged; the new row reads back through `getEntity` as the arguments |
| `Ecs.GroupOfEntities.AddEntityFrom` | ecs.h:108-112 | size grows by one; the new last row holds the values of the given view; earlier rows are unchanged |
| `Ecs.GroupOfEntities.RemoveEntity` | ecs.h:114-118 | for `idx < size`, each sequence becomes its erase at `idx` (later rows move down by one) and size drops by one; the invariant is kept |
| `Ecs.GroupOfEntities.RemoveSubset` | ecs.h:120-126 | for `idx + count <= size`, each sequence becomes `s[..idx] + s[idx + count..]` and size drops by `count`; the invariant is kept |
| `Ecs.GroupOfEntities.GetSubsetAsWritten` | ecs.h:132-140 | as written, the copy's sequences are `s[idx..idx + count]` but its size stays 0, so for `count > 0` the copy breaks the invariant |
| `Ecs.GroupOfEntities.GetSubset` | ecs.h:132-140 | corrected: a fresh valid group of size `count` whose row `j` is source row `idx + j`; the source group is not modified |
| `Ecs.GroupOfEntities.AddSet` | ecs.h:142-148 | each sequence becomes `s + other.s[idx..idx + count]` (the other group's rows on entry), size grows by `count`, the invariant is kept, and a distinct `other` is unchanged |
| `Ecs.GroupOfEntities.AddAll` | ecs.h:150-156 | iterating the copy of `other` from `begin()` to `end()` appends all of its rows in order, the same as `addSet(other, 0, other.size())`; size grows by `other.size()` |
| `Scenarios.AddAllIsAddSetOfEveryRow` | ecs.h:142-156 | on two equal groups, `addSet(entities)` and `addSet(entities, 0, entities.size())` leave equal sequences and equal sizes |
| `Ecs.GroupOfEntities.Begin` | ecs.h:158-162 | `begin()` is a cursor on this group at index 0 |
| `Ecs.GroupOfEntities.End` | ecs.h:164-168 | `end()` is a cursor on this group at index `size`, so on an empty group it equals `begin()` |
| `Ecs.Iterator.constructor` | ecs.h:20-21 | a cursor holds the given index and group |
| `Ecs.Iterator.Increment` | ecs.h:23-26 | prefix `++` moves the index up by exactly one and returns the same cursor |
| `Ecs.Iterator.PostIncrement` | ecs.h:28-30 | postfix `++` returns a cursor at the old index on the same group, then moves this one up by one |
| `Ecs.Iterator.Decrement` | ecs.h:32-35 | prefix `--` moves the index down by exactly one and returns the same cursor |
| `Ecs.Iterator.PostDecrement` | ecs.h:37-39 | postfix `--` returns a cursor at the old index on the same group, then moves this one down by one |
| `Ecs.Iterator.Plus` | ecs.h:41-43 | `it + step` is a new cursor on the same group `step` rows further on; `it` is unchanged |
| `Ecs.Iterator.Minus` | ecs.h:45-47 | `it - step` is a new cursor on the same group `step` rows back; `it` is unchanged |
| `Ecs.Iterator.Deref` | ecs.h:49-51 | dereferencing gives the row under the cursor, component by component equal to `get<T>(current)` |
| `Ecs.Iterator.Equals` | ecs.h:53-55 | `==` holds exactly when both cursors are on the same group and at the same index |
| `Ecs.Iterator.NotEquals` | ecs.h:53-59 | `!=` holds exactly when `==` (same group and same index) does not |

## Findings

| source | as written | input that shows it | evidently intended | confidence | as-written member | corrected member |
|---|---|---|---|---|---|---|
| ecs.h:132-140 | `getSubset` pushes the rows into `tmp` but never sets `tmp.m_size` | a group with one row, `getSubset(0, 1)`: the copy's `size()` is 0 while both its vectors hold one element (`Scenarios.SubsetAsWrittenLosesRowCount`) | the copy's size is `count`, as the invariant requires | high (not executed) | `Ecs.GroupOfEntities.GetSubsetAsWritten` | `Ecs.GroupOfEntities.GetSubset` |

## Left out

- command.h is not part of this model. It is a type-erased deferred-call queue with no data dependency on the group.
- Only two component types are modelled (`A` and `B`). Every operation treats each component sequence the same way, so more types add nothing new.
- ecs.h selects a component by its type (`get<T>`, `getComponent<T>`), so its component types must all differ. The model selects a component by field (`listA`, `listB`, `a`, `b`) and does not require `A` and `B` to differ.
- Views and cursors as references into live storage are not modelled: a view is read by value. Invalidation after a reallocating or shifting mutation, and writing through the references that `get`, `getEntity` and `getComponent` return, are therefore not captured.
- The raw per-component vector iterators `begin<T>()`/`end<T>()` (ecs.h:74-82) and the layout casts that select a component base (ecs.h:13, ecs.h:71-72) are left out. They only forward to `std::vector`.
- Allocation failure or an exception partway through a fold over the component types is left out. The model performs each mutation as one sequential step.
- Out-of-range indices are not modelled. For `get`, `getEntity`, `removeEntity`, `removeSubset`, `getSubset` and `addSet` they are unchecked caller errors, stated as preconditions.
- Ecs.Iterator.Decrement: requires `current > 0`; the `size_t` wrap-around of `--` at index 0 is not modelled, because it is an unchecked caller error.
- Ecs.Iterator.PostDecrement: requires `current > 0`, for the same reason as `Decrement`.
- Ecs.Iterator.Minus: requires `step <= current`; the `size_t` wrap-around of `-` is not modelled, because it is an unchecked caller error.
- Ecs.Iterator.Plus: indices are unbounded, so `size_t` overflow of `current + step` is not modelled.
- Ecs.GroupOfEntities.AddSet: `size_t` overflow of `idx + count` and of `m_size + count` is not modelled; sizes are unbounded naturals.
