/**
  Client code over two component types, a position and a velocity. Each
  method walks one usage of the store and states what a caller may conclude
  from the contracts alone.
 */
module Scenarios {
  import opened Ecs

  datatype Position = Position(x: int, y: int)
  datatype Velocity = Velocity(dx: int, dy: int)

  /** An empty group has no rows, and its cursors `begin()` and `end()` are equal. */
  method EmptyGroup() {
    var g := new GroupOfEntities<Position, Velocity>(Position(0, 0), Velocity(0, 0));
    var first := g.Begin();
    var last := g.End();
    assert g.Size() == 0;
    assert first.Equals(last) && !first.NotEquals(last);
  }

  /** Two rows added, read back through `get` and through a cursor, one
      copied out, one removed. */
  method AddCopyRemove() {
    var g := new GroupOfEntities<Position, Velocity>(Position(0, 0), Velocity(0, 0));
    g.AddEntity(Position(1, 2), Velocity(0, 1));
    g.AddEntity(Position(3, 4), Velocity(1, 1));
    assert g.Size() == 2;
    assert g.GetA(0) == Position(1, 2) && g.GetB(1) == Velocity(1, 1);

    var it := g.Begin();
    var second := it.Plus(1);
    assert it.current == 0;
    assert second.Deref() == Entity(Position(3, 4), Velocity(1, 1));

    var sub := g.GetSubset(0, 1);
    assert sub.Size() == 1 && sub.GetA(0) == Position(1, 2);
    assert g.Size() == 2;

    g.RemoveEntity(0);
    assert g.Size() == 1 && g.GetA(0) == Position(3, 4);
  }

  /** Rows of one group appended onto another, and a group onto itself. */
  method MergeGroups() {
    var a := new GroupOfEntities<Position, Velocity>(Position(0, 0), Velocity(0, 0));
    var b := new GroupOfEntities<Position, Velocity>(Position(0, 0), Velocity(0, 0));
    a.AddEntity(Position(5, 6), Velocity(0, 0));
    b.AddEntity(Position(7, 8), Velocity(1, 1));
    a.AddSet(b, 0, 1);
    assert a.Size() == 2 && a.GetA(1) == Position(7, 8);
    assert b.Size() == 1 && b.GetA(0) == Position(7, 8);

    a.AddAll(a);
    assert a.Size() == 4 && a.GetA(2) == Position(5, 6) && a.GetA(3) == Position(7, 8);
  }

  /** Appending all of `entities` onto one group and appending its rows
      `[0, entities.size())` onto an equal group give equal groups. */
  method AddAllIsAddSetOfEveryRow<A, B>(g: GroupOfEntities<A, B>, h: GroupOfEntities<A, B>,
                                        entities: GroupOfEntities<A, B>)
    requires g.Valid() && h.Valid() && entities.Valid()
    requires g != h && g != entities && h != entities
    requires g.listA == h.listA && g.listB == h.listB
    modifies g, h
    ensures g.Valid() && h.Valid()
    ensures g.listA == h.listA && g.listB == h.listB && g.Size() == h.Size()
  {
    g.AddAll(entities);
    h.AddSet(entities, 0, entities.Size());
  }

  /** `getSubset(0, 1)` as written on a group with one row: the copy holds
      the row in both sequences yet its `size()` is 0. */
  method SubsetAsWrittenLosesRowCount() {
    var g := new GroupOfEntities<Position, Velocity>(Position(0, 0), Velocity(0, 0));
    g.AddEntity(Position(1, 2), Velocity(0, 1));
    var sub := g.GetSubsetAsWritten(0, 1);
    assert sub.Size() == 0 && |sub.listA| == 1 && |sub.listB| == 1;
    assert !sub.Valid();
  }
}
