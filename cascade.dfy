/**
 * DELETE on an entity table together with the ON DELETE CASCADE foreign keys
 * of the schema: rooms.house_id, appliances.room_id and parts.appliance_id all
 * reference their parent table with ON DELETE CASCADE, so deleting a row
 * removes its whole subtree.
 */
module Cascade {
  import opened Wrappers
  import opened Tables

  /** Ids of the rows whose foreign key is in `parents`. */
  function ChildIds(rows: seq<Row>, parents: set<int>): set<int>
  {
    set r | r in rows && r.parent in parents :: r.id
  }

  /** The cascade fired on table `k` when the parent rows with ids `parents`
      disappear: the rows pointing at them go, and so do their own children. */
  function Cascade(t: Tables, k: Kind, parents: set<int>): (t': Tables)
    requires k != House
    decreases 3 - Depth(k)
    ensures t'.users == t.users
    ensures forall k' :: Depth(k') < Depth(k) ==> Table(t', k') == Table(t, k')
    ensures Table(t', k) == Select(Table(t, k), ParentNotIn(parents))
  {
    var rows := Table(t, k);
    var t1 := WithTable(t, k, Select(rows, ParentNotIn(parents)));
    if k == Part then t1 else Cascade(t1, Down(k), ChildIds(rows, parents))
  }

  /** DELETE FROM <table k> WHERE id = $1, with the cascades it fires. Only a
      row that exists fires a cascade. */
  function DeleteRow(t: Tables, k: Kind, id: int): (t': Tables)
    ensures t'.users == t.users
    ensures forall k' :: Depth(k') < Depth(k) ==> Table(t', k') == Table(t, k')
    ensures Table(t', k) == Select(Table(t, k), IdNotIn({id}))
  {
    var rows := Table(t, k);
    var t1 := WithTable(t, k, Select(rows, IdNotIn({id})));
    if k == Part then t1 else Cascade(t1, Down(k), Ids(rows) * {id})
  }

  /** Referential integrity, except that rows of table `k` may still point at
      the parent ids `pending`, whose rows were just deleted. */
  predicate LinkedBut(t: Tables, k: Kind, pending: set<int>)
  {
    && (forall k', r :: k' != k && r in Table(t, k') ==> r.parent in ParentIds(t, k'))
    && (forall r :: r in Table(t, k) ==> r.parent in ParentIds(t, k) + pending)
  }

  lemma {:induction false} CascadeKeepsLinked(t: Tables, k: Kind, pending: set<int>)
    requires k != House
    requires LinkedBut(t, k, pending)
    decreases 3 - Depth(k)
    ensures Linked(Cascade(t, k, pending))
  {
    var rows := Table(t, k);
    var kept := Select(rows, ParentNotIn(pending));
    var t1 := WithTable(t, k, kept);
    assert ParentIds(t1, k) == ParentIds(t, k);
    if k == Part {
      forall k', r | r in Table(t1, k') ensures r.parent in ParentIds(t1, k') {
        if k' != k {
          assert ParentIds(t1, k') == ParentIds(t, k') by {
            if k' != House {
              assert Up(k') != k by { assert Depth(Up(k')) < 3; }
            }
          }
        }
      }
    } else {
      var gone := ChildIds(rows, pending);
      assert Ids(rows) <= Ids(kept) + gone by {
        forall r | r in rows ensures r.id in Ids(kept) + gone {
          if r.parent !in pending {
            assert r in kept;
          }
        }
      }
      forall k', r | k' != Down(k) && r in Table(t1, k') ensures r.parent in ParentIds(t1, k') {
        if k' != k && k' != House {
          assert Up(k') != k;
        }
      }
      assert ParentIds(t1, Down(k)) == Ids(kept);
      CascadeKeepsLinked(t1, Down(k), gone);
    }
  }

  /** Deleting any row, with its cascades, leaves no dangling foreign key:
      the whole subtree below the row goes with it. */
  lemma DeleteKeepsLinked(t: Tables, k: Kind, id: int)
    requires Linked(t)
    ensures Linked(DeleteRow(t, k, id))
  {
    var rows := Table(t, k);
    var kept := Select(rows, IdNotIn({id}));
    var t1 := WithTable(t, k, kept);
    if k == Part {
      forall k', r | r in Table(t1, k') ensures r.parent in ParentIds(t1, k') {
        if k' != k && k' != House {
          assert Up(k') != k by { assert Depth(Up(k')) < 3; }
        }
      }
    } else {
      assert Ids(rows) <= Ids(kept) + Ids(rows) * {id} by {
        forall r | r in rows ensures r.id in Ids(kept) + Ids(rows) * {id} {
          if r.id != id {
            assert r in kept;
          }
        }
      }
      forall k', r | k' != Down(k) && r in Table(t1, k') ensures r.parent in ParentIds(t1, k') {
        if k' != k && k' != House {
          assert Up(k') != k;
        }
      }
      CascadeKeepsLinked(t1, Down(k), Ids(rows) * {id});
    }
  }

  lemma {:induction false} CascadeNothing(t: Tables, k: Kind)
    requires k != House
    decreases 3 - Depth(k)
    ensures Cascade(t, k, {}) == t
  {
    var rows := Table(t, k);
    SelectAll(rows, ParentNotIn({}));
    assert WithTable(t, k, rows) == t;
    if k != Part {
      assert ChildIds(rows, {}) == {};
      CascadeNothing(t, Down(k));
    }
  }

  /** Deleting an id that no row has changes nothing. */
  lemma DeleteAbsentIsNoop(t: Tables, k: Kind, id: int)
    requires id !in Ids(Table(t, k))
    ensures DeleteRow(t, k, id) == t
  {
    var rows := Table(t, k);
    SelectAll(rows, IdNotIn({id}));
    assert WithTable(t, k, rows) == t;
    if k != Part {
      assert Ids(rows) * {id} == {};
      CascadeNothing(t, Down(k));
    }
  }

  /** Deleting a row removes exactly that row from its own table: every other
      row stays, in order; the tables above it and the users are untouched. */
  lemma DeleteRemovesOnlyTarget(t: Tables, k: Kind, id: int)
    ensures var t' := DeleteRow(t, k, id);
      && id !in Ids(Table(t', k))
      && (forall x :: x in Table(t, k) && x.id != id ==> x in Table(t', k))
      && t'.users == t.users
      && (forall k' :: Depth(k') < Depth(k) ==> Table(t', k') == Table(t, k'))
  {
  }

  /** rooms.house_id ON DELETE CASCADE: once a house is deleted, no room of it is left. */
  lemma RoomGoesWithHouse(t: Tables, house: int)
    requires house in Ids(t.houses)
    ensures forall x :: x in DeleteRow(t, House, house).rooms ==> x.parent != house
    ensures forall x :: x in t.rooms && x.parent != house ==> x in DeleteRow(t, House, house).rooms
  {
    assert Ids(t.houses) * {house} == {house};
  }

  /** appliances.room_id ON DELETE CASCADE: once a room is deleted, no appliance of it is left. */
  lemma ApplianceGoesWithRoom(t: Tables, room: int)
    requires room in Ids(t.rooms)
    ensures forall x :: x in DeleteRow(t, Room, room).appliances ==> x.parent != room
    ensures forall x :: x in t.appliances && x.parent != room ==> x in DeleteRow(t, Room, room).appliances
  {
    assert Ids(t.rooms) * {room} == {room};
  }

  /** parts.appliance_id ON DELETE CASCADE: once an appliance is deleted, no part of it is left. */
  lemma PartGoesWithAppliance(t: Tables, appliance: int)
    requires appliance in Ids(t.appliances)
    ensures forall x :: x in DeleteRow(t, Appliance, appliance).parts ==> x.parent != appliance
    ensures forall x :: x in t.parts && x.parent != appliance ==> x in DeleteRow(t, Appliance, appliance).parts
  {
    assert Ids(t.appliances) * {appliance} == {appliance};
  }

  /** Parts are leaves: deleting a part touches no other table. */
  lemma PartDeleteTouchesOnlyParts(t: Tables, id: int)
    ensures DeleteRow(t, Part, id) == t.(parts := Select(t.parts, IdNotIn({id})))
  {
  }

  /** A selection keeps the primary key: it only drops rows. */
  lemma {:induction false} SelectUnique(rows: seq<Row>, w: Where)
    requires UniqueIds(rows)
    ensures UniqueIds(Select(rows, w))
  {
    if rows != [] {
      SelectUnique(rows[1..], w);
      assert rows[0].id !in Ids(rows[1..]) by {
        forall x | x in rows[1..] ensures x.id != rows[0].id {
          var j :| 0 <= j < |rows[1..]| && rows[1..][j] == x;
          assert rows[j + 1] == x;
        }
      }
    }
  }

  /** A cascade only drops rows: every table keeps its primary key, and every
      row left was there before. */
  lemma {:induction false} CascadeShrinks(t: Tables, k: Kind, parents: set<int>)
    requires k != House
    requires forall k' :: UniqueIds(Table(t, k'))
    decreases 3 - Depth(k)
    ensures forall k' :: UniqueIds(Table(Cascade(t, k, parents), k'))
    ensures forall k', x :: x in Table(Cascade(t, k, parents), k') ==> x in Table(t, k')
  {
    var rows := Table(t, k);
    var t1 := WithTable(t, k, Select(rows, ParentNotIn(parents)));
    SelectUnique(rows, ParentNotIn(parents));
    if k != Part {
      CascadeShrinks(t1, Down(k), ChildIds(rows, parents));
    }
  }

  /** Deleting a row only drops rows, so the primary keys survive it. */
  lemma DeleteShrinks(t: Tables, k: Kind, id: int)
    requires forall k' :: UniqueIds(Table(t, k'))
    ensures forall k' :: UniqueIds(Table(DeleteRow(t, k, id), k'))
    ensures forall k', x :: x in Table(DeleteRow(t, k, id), k') ==> x in Table(t, k')
  {
    var rows := Table(t, k);
    var t1 := WithTable(t, k, Select(rows, IdNotIn({id})));
    SelectUnique(rows, IdNotIn({id}));
    if k != Part {
      CascadeShrinks(t1, Down(k), Ids(rows) * {id});
    }
  }

  /** Referential integrity of every table below `k`. */
  predicate LinkedBelow(t: Tables, k: Kind)
  {
    forall k', x :: Depth(k) < Depth(k') && x in Table(t, k') ==> x.parent in ParentIds(t, k')
  }

  /** Below the level a cascade starts at, a row survives exactly when its
      parent row survives: the cascade goes down level by level and removes
      nothing else. */
  lemma {:induction false} CascadeKeepsChildren(t: Tables, k: Kind, parents: set<int>)
    requires k != House
    requires forall k' :: UniqueIds(Table(t, k'))
    requires LinkedBelow(t, k)
    decreases 3 - Depth(k)
    ensures var t' := Cascade(t, k, parents);
      forall k', x :: Depth(k) < Depth(k') ==>
        (x in Table(t', k') <==> x in Table(t, k') && x.parent in Ids(Table(t', Up(k'))))
  {
    var rows := Table(t, k);
    var kept := Select(rows, ParentNotIn(parents));
    var t1 := WithTable(t, k, kept);
    if k != Part {
      var gone := ChildIds(rows, parents);
      SelectUnique(rows, ParentNotIn(parents));
      GoneOrKept(Table(t, Down(k)), rows, parents);
      LinkedBelowStep(t, k, kept);
      CascadeKeepsChildren(t1, Down(k), gone);
      NextLevel(t, t1, Cascade(t1, Down(k), gone), k, gone);
    }
  }

  /** One level of the cascade: a child row's parent is among the deleted
      ids exactly when it is not among the kept rows' ids. */
  lemma GoneOrKept(child: seq<Row>, rows: seq<Row>, parents: set<int>)
    requires UniqueIds(rows)
    requires forall x :: x in child ==> x.parent in Ids(rows)
    ensures forall x :: x in child ==>
      (x.parent !in ChildIds(rows, parents) <==> x.parent in Ids(Select(rows, ParentNotIn(parents))))
  {
    var kept := Select(rows, ParentNotIn(parents));
    forall x | x in child
      ensures x.parent !in ChildIds(rows, parents) <==> x.parent in Ids(kept)
    {
      var r :| r in rows && r.id == x.parent;
      if x.parent in ChildIds(rows, parents) {
        var r' :| r' in rows && r'.parent in parents && r'.id == x.parent;
        UniqueSame(rows, r, r');
        if x.parent in Ids(kept) {
          var r'' :| r'' in kept && r''.id == x.parent;
          UniqueSame(rows, r, r'');
        }
      } else {
        assert r in kept;
      }
    }
  }

  /** Replacing table `k` keeps the foreign keys of the tables two levels
      and more below it. */
  lemma LinkedBelowStep(t: Tables, k: Kind, rows: seq<Row>)
    requires k != Part
    requires LinkedBelow(t, k)
    ensures LinkedBelow(WithTable(t, k, rows), Down(k))
  {
    var t1 := WithTable(t, k, rows);
    forall k', x | Depth(Down(k)) < Depth(k') && x in Table(t1, k') ensures x.parent in ParentIds(t1, k') {
      assert Up(k') != k;
    }
  }

  /** The glue of the induction: the level right below `k` from the
      selection, the deeper levels from the cascade started there. */
  lemma NextLevel(t: Tables, t1: Tables, t': Tables, k: Kind, gone: set<int>)
    requires k != Part
    requires t1 == WithTable(t, k, Table(t1, k))
    requires t' == Cascade(t1, Down(k), gone)
    requires forall x :: x in Table(t, Down(k)) ==> (x.parent !in gone <==> x.parent in Ids(Table(t1, k)))
    requires forall k', x :: Depth(Down(k)) < Depth(k') ==>
        (x in Table(t', k') <==> x in Table(t1, k') && x.parent in Ids(Table(t', Up(k'))))
    ensures forall k', x :: Depth(k) < Depth(k') ==>
        (x in Table(t', k') <==> x in Table(t, k') && x.parent in Ids(Table(t', Up(k'))))
  {
    forall k', x | Depth(k) < Depth(k')
      ensures x in Table(t', k') <==> x in Table(t, k') && x.parent in Ids(Table(t', Up(k')))
    {
      assert Table(t1, k') == Table(t, k');
      if k' == Down(k) {
        assert Table(t', k) == Table(t1, k);
      }
    }
  }

  /** Two rows of a table with the same id are the same row. */
  lemma UniqueSame(rows: seq<Row>, a: Row, b: Row)
    requires UniqueIds(rows) && a in rows && b in rows && a.id == b.id
    ensures a == b
  {
    var i :| 0 <= i < |rows| && rows[i] == a;
    var j :| 0 <= j < |rows| && rows[j] == b;
    assert i == j;
  }

  /** deleteHouse, deleteRoom, deleteAppliance: in every table below the
      deleted row's, a row is kept exactly when its parent row is kept, so
      the whole subtree goes and nothing outside it. */
  lemma DeleteKeepsChildren(t: Tables, k: Kind, id: int)
    requires Linked(t) && forall k' :: UniqueIds(Table(t, k'))
    ensures var t' := DeleteRow(t, k, id);
      forall k', x :: Depth(k) < Depth(k') ==>
        (x in Table(t', k') <==> x in Table(t, k') && x.parent in Ids(Table(t', Up(k'))))
  {
    var rows := Table(t, k);
    var kept := Select(rows, IdNotIn({id}));
    var t1 := WithTable(t, k, kept);
    if k != Part {
      var gone := Ids(rows) * {id};
      SelectUnique(rows, IdNotIn({id}));
      forall x | x in Table(t, Down(k)) ensures x.parent !in gone <==> x.parent in Ids(kept) {
        assert x.parent in Ids(rows) by {
          assert x.parent in ParentIds(t, Down(k));
        }
        var r :| r in rows && r.id == x.parent;
        if x.parent != id {
          assert r in kept;
        }
      }
      LinkedBelowStep(t, k, kept);
      CascadeKeepsChildren(t1, Down(k), gone);
      NextLevel(t, t1, Cascade(t1, Down(k), gone), k, gone);
    }
  }
}
