/**
  A structure-of-arrays entity store. The variadic component pack of the
  C++ code in ecs.h is fixed at two component types, `A` and `B`: one
  sequence per type and a row counter that every mutator keeps in lockstep
  with them.
 */
module Ecs {
  import opened Vectors

  /** One row read out as a value: the `A` and the `B` component of one
      entity. `getComponent<T>()` on a view is the field of type `T`. */
  datatype Entity<A, B> = Entity(a: A, b: B)

  class GroupOfEntities<A, B> {
    // the per-component vectors and the row counter `m_size`
    var listA: seq<A>
    var listB: seq<B>
    var size: nat

    // the value-initialised component `T{}` that `addEntity()` appends
    const defaultA: A
    const defaultB: B

    /** Every component sequence holds exactly `size` rows. */
    ghost predicate Valid()
      reads this
    {
      |listA| == size && |listB| == size
    }

    /** A new group is empty. */
    constructor (defaultA: A, defaultB: B)
      ensures Valid() && size == 0 && listA == [] && listB == []
      ensures this.defaultA == defaultA && this.defaultB == defaultB
    {
      this.defaultA, this.defaultB := defaultA, defaultB;
      listA, listB, size := [], [], 0;
    }

    /** The implicit copy constructor: a group passed by value. */
    constructor Copy(other: GroupOfEntities<A, B>)
      requires other.Valid()
      ensures Valid() && size == other.size
      ensures listA == other.listA && listB == other.listB
      ensures defaultA == other.defaultA && defaultB == other.defaultB
    {
      defaultA, defaultB := other.defaultA, other.defaultB;
      listA, listB, size := other.listA, other.listB, other.size;
    }

    /** `size()`: the row counter; on a group that keeps the invariant it
        is the length of every sequence. */
    function Size(): (n: nat)
      reads this
      ensures n == size
      ensures Valid() ==> n == |listA| && n == |listB|
    {
      size
    }

    /** `get<A>(idx)`: the element at `idx` of the `A` vector. */
    function GetA(idx: nat): (x: A)
      reads this
      requires Valid() && idx < size
      ensures x == listA[idx]
    {
      listA[idx]
    }

    /** `get<B>(idx)`: the element at `idx` of the `B` vector. */
    function GetB(idx: nat): (x: B)
      reads this
      requires Valid() && idx < size
      ensures x == listB[idx]
    {
      listB[idx]
    }

    /** `getEntity(idx)`: the view of row `idx` holds, for each component
        type, what `get` of that type returns for the same row. */
    function GetEntity(idx: nat): (e: Entity<A, B>)
      reads this
      requires Valid() && idx < size
      ensures e.a == GetA(idx) && e.b == GetB(idx)
    {
      Entity(listA[idx], listB[idx])
    }

    /** `addEntity()`: appends a row of value-initialised components. */
    method AddDefaultEntity()
      requires Valid()
      modifies this
      ensures Valid() && size == old(size) + 1
      ensures listA == old(listA) + [defaultA] && listB == old(listB) + [defaultB]
      ensures GetEntity(size - 1) == Entity(defaultA, defaultB)
    {
      listA := listA + [defaultA];
      listB := listB + [defaultB];
      size := size + 1;
    }

    /** `addEntity(c1, c2)`: appends one row made of the given values. */
    method AddEntity(a: A, b: B)
      requires Valid()
      modifies this
      ensures Valid() && size == old(size) + 1
      ensures listA == old(listA) + [a] && listB == old(listB) + [b]
      ensures GetEntity(size - 1) == Entity(a, b)
    {
      listA := listA + [a];
      listB := listB + [b];
      size := size + 1;
    }

    /** `addEntity(entity)`: appends a row holding the values the view
        refers to. */
    method AddEntityFrom(entity: Entity<A, B>)
      requires Valid()
      modifies this
      ensures Valid() && size == old(size) + 1
      ensures listA == old(listA) + [entity.a] && listB == old(listB) + [entity.b]
      ensures GetEntity(size - 1) == entity
    {
      listA := listA + [entity.a];
      listB := listB + [entity.b];
      size := size + 1;
    }

    /** `removeEntity(idx)`: erases row `idx` from every sequence; later rows
        move down by one. */
    method RemoveEntity(idx: nat)
      requires Valid() && idx < size
      modifies this
      ensures Valid() && size == old(size) - 1
      ensures listA == Erase(old(listA), idx) && listB == Erase(old(listB), idx)
    {
      listA := Erase(listA, idx);
      listB := Erase(listB, idx);
      size := size - 1;
    }

    /** `removeSubset(idx, count)`: erases at `idx`, `count` times, and only
        then lowers the row counter; the net effect cuts rows
        `[idx, idx + count)` out of every sequence. */
    method RemoveSubset(idx: nat, count: nat)
      requires Valid() && idx + count <= size
      modifies this
      ensures Valid() && size == old(size) - count
      ensures listA == old(listA)[..idx] + old(listA)[idx + count..]
      ensures listB == old(listB)[..idx] + old(listB)[idx + count..]
    {
      var i := idx;
      while i < idx + count
        invariant idx <= i <= idx + count
        invariant size == old(size)
        invariant listA == EraseRepeatedly(old(listA), idx, i - idx)
        invariant listB == EraseRepeatedly(old(listB), idx, i - idx)
      {
        listA := Erase(listA, idx);
        listB := Erase(listB, idx);
        i := i + 1;
      }
      EraseRepeatedlyRemovesRange(old(listA), idx, count);
      EraseRepeatedlyRemovesRange(old(listB), idx, count);
      size := size - count;
    }

    /** `getSubset(idx, count)` exactly as written: the rows are copied into
        a fresh group, but that group's row counter is never set, so it
        reports no rows while its sequences hold `count` of them. */
    method GetSubsetAsWritten(idx: nat, count: nat) returns (tmp: GroupOfEntities<A, B>)
      requires Valid() && idx + count <= size
      ensures fresh(tmp) && tmp.size == 0
      ensures tmp.listA == listA[idx..idx + count] && tmp.listB == listB[idx..idx + count]
      ensures tmp.defaultA == defaultA && tmp.defaultB == defaultB
      ensures count > 0 ==> !tmp.Valid()
    {
      tmp := new GroupOfEntities(defaultA, defaultB);
      var i := idx;
      while i < idx + count
        invariant idx <= i <= idx + count
        invariant fresh(tmp) && tmp.size == 0
        invariant tmp.defaultA == defaultA && tmp.defaultB == defaultB
        invariant tmp.listA == listA[idx..i] && tmp.listB == listB[idx..i]
      {
        tmp.listA := tmp.listA + [listA[i]];
        tmp.listB := tmp.listB + [listB[i]];
        i := i + 1;
      }
    }

    /** `getSubset(idx, count)` with the row counter of the copy set: a new,
        valid group whose row `j` is row `idx + j` of this one. The source
        group is left as it was. */
    method GetSubset(idx: nat, count: nat) returns (tmp: GroupOfEntities<A, B>)
      requires Valid() && idx + count <= size
      ensures fresh(tmp) && tmp.Valid() && tmp.size == count
      ensures tmp.listA == listA[idx..idx + count] && tmp.listB == listB[idx..idx + count]
      ensures forall j :: 0 <= j < count ==> tmp.GetEntity(j) == GetEntity(idx + j)
    {
      tmp := GetSubsetAsWritten(idx, count);
      tmp.size := count;
    }

    /** `addSet(entities, idx, count)`: appends rows `[idx, idx + count)` of
        `entities`, which is taken by value, so appending a group onto
        itself reads the rows it had on entry. */
    method AddSet(entities: GroupOfEntities<A, B>, idx: nat, count: nat)
      requires Valid() && entities.Valid() && idx + count <= entities.size
      modifies this
      ensures Valid() && size == old(size) + count
      ensures listA == old(listA) + old(entities.listA)[idx..idx + count]
      ensures listB == old(listB) + old(entities.listB)[idx..idx + count]
      ensures entities != this ==> unchanged(entities)
    {
      var copy := new GroupOfEntities.Copy(entities);
      var i := idx;
      while i < idx + count
        invariant idx <= i <= idx + count
        invariant size == old(size)
        invariant copy.Valid() && copy.listA == old(entities.listA) && copy.listB == old(entities.listB)
        invariant listA == old(listA) + copy.listA[idx..i]
        invariant listB == old(listB) + copy.listB[idx..i]
      {
        listA := listA + [copy.GetA(i)];
        listB := listB + [copy.GetB(i)];
        i := i + 1;
      }
      size := size + count;
    }

    /** `addSet(entities)`, as intended: a range-for over the by-value copy
        of `entities` that appends every row, which is
        `addSet(entities, 0, entities.size())`. */
    method AddAll(entities: GroupOfEntities<A, B>)
      requires Valid() && entities.Valid()
      modifies this
      ensures Valid() && size == old(size) + old(entities.size)
      ensures listA == old(listA) + old(entities.listA)
      ensures listB == old(listB) + old(entities.listB)
      ensures entities != this ==> unchanged(entities)
    {
      var copy := new GroupOfEntities.Copy(entities);
      var it := copy.Begin();
      var stop := copy.End();
      while it.NotEquals(stop)
        invariant copy.Valid() && copy.listA == old(entities.listA) && copy.listB == old(entities.listB)
        invariant it.container == copy && stop.container == copy && stop.current == copy.size
        invariant it.current <= copy.size
        invariant Valid() && size == old(size) + it.current
        invariant listA == old(listA) + copy.listA[..it.current]
        invariant listB == old(listB) + copy.listB[..it.current]
        decreases copy.size - it.current
      {
        AddEntityFrom(it.Deref());
        var self := it.Increment();
      }
      assert copy.listA[..it.current] == copy.listA;
      assert copy.listB[..it.current] == copy.listB;
    }

    /** `begin()`: a cursor on this group at row 0. */
    method Begin() returns (it: Iterator<A, B>)
      ensures fresh(it) && it.container == this && it.current == 0
    {
      it := new Iterator(0, this);
    }

    /** `end()`: a cursor on this group one past the last row. */
    method End() returns (it: Iterator<A, B>)
      ensures fresh(it) && it.container == this && it.current == size
    {
      it := new Iterator(size, this);
    }
  }

  /** A cursor: a group and a row index into it. */
  class Iterator<A, B> {
    const container: GroupOfEntities<A, B>
    var current: nat

    constructor (idx: nat, container: GroupOfEntities<A, B>)
      ensures this.container == container && current == idx
    {
      this.container := container;
      current := idx;
    }

    /** Prefix `++`: moves this cursor forward one row and returns it. */
    method Increment() returns (self: Iterator<A, B>)
      modifies this
      ensures self == this && current == old(current) + 1
    {
      current := current + 1;
      self := this;
    }

    /** Postfix `++`: a cursor at the old position; this one moves forward. */
    method PostIncrement() returns (prev: Iterator<A, B>)
      modifies this
      ensures fresh(prev) && prev.container == container && prev.current == old(current)
      ensures current == old(current) + 1
    {
      prev := new Iterator(current, container);
      current := current + 1;
    }

    /** Prefix `--`: moves this cursor back one row and returns it. */
    method Decrement() returns (self: Iterator<A, B>)
      requires current > 0
      modifies this
      ensures self == this && current == old(current) - 1
    {
      current := current - 1;
      self := this;
    }

    /** Postfix `--`: a cursor at the old position; this one moves back. */
    method PostDecrement() returns (prev: Iterator<A, B>)
      requires current > 0
      modifies this
      ensures fresh(prev) && prev.container == container && prev.current == old(current)
      ensures current == old(current) - 1
    {
      prev := new Iterator(current, container);
      current := current - 1;
    }

    /** `it + step`: a new cursor `step` rows further on; `it` stays put. */
    method Plus(step: nat) returns (r: Iterator<A, B>)
      ensures fresh(r) && r.container == container && r.current == current + step
    {
      r := new Iterator(current + step, container);
    }

    /** `it - step`: a new cursor `step` rows back; `it` stays put. */
    method Minus(step: nat) returns (r: Iterator<A, B>)
      requires step <= current
      ensures fresh(r) && r.container == container && r.current == current - step
    {
      r := new Iterator(current - step, container);
    }

    /** `*it`: the view of the row under the cursor, equal component by
        component to `get` on that row. */
    function Deref(): (e: Entity<A, B>)
      reads this, container
      requires container.Valid() && current < container.size
      ensures e.a == container.GetA(current) && e.b == container.GetB(current)
    {
      container.GetEntity(current)
    }

    /** `==`: same group and same row. */
    predicate Equals(rs: Iterator<A, B>)
      reads this, rs
      ensures Equals(rs) <==> container == rs.container && current == rs.current
    {
      container == rs.container && current == rs.current
    }

    /** `!=`: written separately in ecs.h; it is exactly the
        negation of `==`. */
    predicate NotEquals(rs: Iterator<A, B>)
      reads this, rs
      ensures NotEquals(rs) <==> !Equals(rs)
    {
      container != rs.container || current != rs.current
    }
  }
}
