/**
 * The ownership chain the handlers and the reminder sweep walk: a part points
 * at its appliance, an appliance at its room, a room at its house and a house
 * at its user. Each step is one findById on the parent table.
 */
module Ownership {
  import opened Wrappers
  import opened Tables

  /** Walk the chain up from the row of table `k` with id `id`, one findById
      per table: Success(user_id) of the house at the top, or Failure(m)
      naming the first table where findById came back null. */
  function OwnerId(t: Tables, k: Kind, id: int): (r: Result<int, Kind>)
    decreases Depth(k)
    ensures r.Failure? ==> Depth(r.error) <= Depth(k)
    ensures r.Failure? && r.error == k <==> id !in Ids(Table(t, k))
  {
    match FindById(Table(t, k), id)
    case None => Failure(k)
    case Some(x) => if k == House then Success(x.parent) else OwnerId(t, Up(k), x.parent)
  }

  /** The chain as a relation, independent of the lookup order: a row with
      that id exists, and it is a house of user `u` or its parent row reaches `u`. */
  ghost predicate Reaches(t: Tables, k: Kind, id: int, u: int)
    decreases Depth(k)
  {
    exists x :: x in Table(t, k) && x.id == id &&
      (if k == House then x.parent == u else Reaches(t, Up(k), x.parent, u))
  }

  /** Under the primary keys the lookup walk and the relation agree, in both
      directions: the walk ends at user `u` exactly when the chain reaches `u`. */
  lemma {:induction false} OwnerIdReaches(t: Tables, k: Kind, id: int, u: int)
    requires forall k' :: UniqueIds(Table(t, k'))
    decreases Depth(k)
    ensures OwnerId(t, k, id) == Success(u) <==> Reaches(t, k, id, u)
  {
    var found := FindById(Table(t, k), id);
    if k != House {
      if found.Some? {
        OwnerIdReaches(t, Up(k), found.value.parent, u);
      }
      if Reaches(t, k, id, u) {
        var x :| x in Table(t, k) && x.id == id && Reaches(t, Up(k), x.parent, u);
        FindByIdUnique(Table(t, k), x);
        OwnerIdReaches(t, Up(k), x.parent, u);
      }
    } else if Reaches(t, k, id, u) {
      var x :| x in Table(t, k) && x.id == id && x.parent == u;
      FindByIdUnique(Table(t, k), x);
    }
  }

  /** Under referential integrity only the first lookup can miss, and the
      walk ends at an existing user. */
  lemma {:induction false} LinkedChain(t: Tables, k: Kind, id: int)
    requires Linked(t)
    decreases Depth(k)
    ensures OwnerId(t, k, id).Failure? ==> OwnerId(t, k, id).error == k
    ensures OwnerId(t, k, id).Success? ==> OwnerId(t, k, id).value in UserIds(t.users)
  {
    var found := FindById(Table(t, k), id);
    if found.Some? && k != House {
      assert found.value.parent in Ids(Table(t, Up(k)));
      LinkedChain(t, Up(k), found.value.parent);
    }
  }

  /** The walk only looks at ids and foreign keys: renames and reminder
      changes leave every owner as it was. */
  lemma {:induction false} OwnerIdSameLinks(t1: Tables, t2: Tables, k: Kind, id: int)
    requires SameLinks(t1, t2)
    decreases Depth(k)
    ensures OwnerId(t1, k, id) == OwnerId(t2, k, id)
  {
    FindByIdLinks(Table(t1, k), Table(t2, k), id);
    var found := FindById(Table(t1, k), id);
    if found.Some? && k != House {
      OwnerIdSameLinks(t1, t2, Up(k), found.value.parent);
    }
  }
}
