/**
 * The decision ladder every entity handler runs before it reads or changes
 * anything: 401 without a caller, then one findById per table up the
 * ownership chain (404 naming the first table that came back null), then 403
 * when the house at the top belongs to someone else.
 */
module Guard {
  import opened Wrappers
  import opened Js
  import opened Tables
  import opened Ownership
  import opened Http

  /** `if (!userId)`: the token middleware set a caller id and it is not 0. */
  predicate Authenticated(caller: Option<int>)
  {
    Present(caller)
  }

  /** The ladder after authentication for the row of table `k` whose id the
      handler parsed (None: parseInt gave NaN, and findById(NaN) throws, so the
      catch answers 500). None means the handler goes on. */
  function Check(t: Tables, caller: int, k: Kind, id: Option<int>): (g: Option<Response>)
    ensures g.None? <==> id.Some? && OwnerId(t, k, id.value) == Success(caller)
    ensures id.None? ==> g == Some(ServerError)
    ensures id.Some? && id.value !in Ids(Table(t, k)) ==> g == Some(NotFound(k))
    ensures id.Some? && OwnerId(t, k, id.value).Failure? ==> g == Some(NotFound(OwnerId(t, k, id.value).error))
    ensures id.Some? && OwnerId(t, k, id.value).Success? && OwnerId(t, k, id.value).value != caller ==>
      g == Some(Forbidden)
  {
    if id.None? then Some(ServerError)
    else match OwnerId(t, k, id.value)
      case Failure(missing) => Some(NotFound(missing))
      case Success(owner) => if owner != caller then Some(Forbidden) else None
  }

  /** The ladder lets a caller through exactly when the ownership chain of
      the row reaches that caller (under the primary keys). */
  lemma CheckReaches(t: Tables, caller: int, k: Kind, id: int)
    requires forall k' :: UniqueIds(Table(t, k'))
    ensures Check(t, caller, k, Some(id)).None? <==> Reaches(t, k, id, caller)
  {
    OwnerIdReaches(t, k, id, caller);
  }

  /** In a database whose foreign keys hold, a handler answers 404 only for
      its own row, and 403 only when the chain ends at another existing user. */
  lemma CheckLinked(t: Tables, caller: int, k: Kind, id: int)
    requires Linked(t)
    ensures var g := Check(t, caller, k, Some(id));
      g == None || g == Some(NotFound(k)) || g == Some(Forbidden)
    ensures Check(t, caller, k, Some(id)) == Some(Forbidden) ==>
      OwnerId(t, k, id).Success? && OwnerId(t, k, id).value != caller && OwnerId(t, k, id).value in UserIds(t.users)
  {
    LinkedChain(t, k, id);
  }

  /** Renames and reminder writes never change a handler's verdict. */
  lemma CheckSameLinks(t1: Tables, t2: Tables, caller: int, k: Kind, id: Option<int>)
    requires SameLinks(t1, t2)
    ensures Check(t1, caller, k, id) == Check(t2, caller, k, id)
  {
    if id.Some? {
      OwnerIdSameLinks(t1, t2, k, id.value);
    }
  }
}
