/**
 * The handlers the four entity controllers share, parameterised by the table
 * they serve: update and delete (house, room, appliance and part
 * controllers), create under a parent and list a parent's children (room,
 * appliance and part controllers). Each runs the ladder of module Guard
 * before it touches the database; any exception becomes a 500.
 */
module EntityController {
  import opened Wrappers
  import opened Js
  import opened Tables
  import opened Cascade
  import opened Ownership
  import opened Http
  import opened Guard
  import opened Store

  /** updateHouse / updateRoom / updateAppliance / updatePart: the ladder on
      the row itself, then a rename. A missing name is bound as NULL, the
      NOT NULL constraint throws and the catch answers 500. */
  method UpdateEntity(db: Database, caller: Option<int>, k: Kind, id: Option<int>, name: Option<string>)
    returns (resp: Response)
    requires db.Valid()
    modifies db
    ensures db.Valid()
    ensures !Authenticated(caller) ==> resp == Unauthorized && unchanged(db)
    ensures Authenticated(caller) && Check(old(db.t), caller.value, k, id).Some? ==>
      resp == Check(old(db.t), caller.value, k, id).value && unchanged(db)
    ensures Authenticated(caller) && Check(old(db.t), caller.value, k, id).None? && name.None? ==>
      resp == ServerError && unchanged(db)
    ensures Authenticated(caller) && Check(old(db.t), caller.value, k, id).None? && name.Some? ==>
      && resp == Response(200, One(FindById(Table(old(db.t), k), id.value).value.(name := name.value)))
      && db.t == WithTable(old(db.t), k, UpdateRows(Table(old(db.t), k), id.value, SetName(name.value)))
  {
    if !Authenticated(caller) {
      return Unauthorized;
    }
    var stop := Check(db.t, caller.value, k, id);
    if stop.Some? {
      return stop.value;
    }
    var r := db.Rename(k, id.value, name);
    if r.Failure? {
      return ServerError;
    }
    resp := Response(200, One(r.value));
  }

  /** deleteHouse / deleteRoom / deleteAppliance / deletePart: the ladder on
      the row itself, then the delete with its cascade, answered by 204. */
  method DeleteEntity(db: Database, caller: Option<int>, k: Kind, id: Option<int>) returns (resp: Response)
    requires db.Valid()
    modifies db
    ensures db.Valid()
    ensures !Authenticated(caller) ==> resp == Unauthorized && unchanged(db)
    ensures Authenticated(caller) && Check(old(db.t), caller.value, k, id).Some? ==>
      resp == Check(old(db.t), caller.value, k, id).value && unchanged(db)
    ensures Authenticated(caller) && Check(old(db.t), caller.value, k, id).None? ==>
      resp == Response(204, NoContent) && db.t == DeleteRow(old(db.t), k, id.value)
  {
    if !Authenticated(caller) {
      return Unauthorized;
    }
    var stop := Check(db.t, caller.value, k, id);
    if stop.Some? {
      return stop.value;
    }
    db.Delete(k, id.value);
    resp := Response(204, NoContent);
  }

  /** createRoom / createAppliance / createPart: 400 unless the name and the
      parent id from the body are truthy, then the ladder on the parent row,
      then the insert, answered by 201 with the new row. createRoom and
      createAppliance pass only the name and the parent, so rooms and
      appliances are created with no reminder and no other columns; createPart
      also passes the reminder date and website link of the body. */
  method CreateChild(db: Database, caller: Option<int>, k: Kind, name: Option<string>, parentId: Option<int>,
                     reminder: Option<int>, details: Details) returns (resp: Response)
    requires k != House
    requires db.Valid()
    modifies db
    ensures db.Valid()
    ensures !Authenticated(caller) ==> resp == Unauthorized && unchanged(db)
    ensures Authenticated(caller) && (!Truthy(name) || !Present(parentId)) ==> resp == MissingFields(k) && unchanged(db)
    ensures Authenticated(caller) && Truthy(name) && Present(parentId) && Check(old(db.t), caller.value, Up(k), parentId).Some? ==>
      resp == Check(old(db.t), caller.value, Up(k), parentId).value && unchanged(db)
    ensures Authenticated(caller) && Truthy(name) && Present(parentId) && Check(old(db.t), caller.value, Up(k), parentId).None? ==>
      var row := Row(old(db.next[k]), name.value, parentId.value,
                     if k == Part then reminder else None, if k == Part then details else []);
      && resp == Response(201, One(row))
      && row.id !in Ids(Table(old(db.t), k))
      && db.t == WithTable(old(db.t), k, Table(old(db.t), k) + [row])
  {
    if !Authenticated(caller) {
      return Unauthorized;
    }
    if !Truthy(name) || !Present(parentId) {
      return MissingFields(k);
    }
    var stop := Check(db.t, caller.value, Up(k), parentId);
    if stop.Some? {
      return stop.value;
    }
    var r := db.Create(k, name.value, parentId.value,
                       if k == Part then reminder else None, if k == Part then details else []);
    resp := Response(201, One(r.value));
  }

  /** getRoomsByHouseId / getAppliancesByRoomId / getPartsByApplianceId: the
      ladder on the parent row (401, 404 for the first missing link, 403 for
      another owner), then its children in table order. */
  function GetChildren(t: Tables, caller: Option<int>, k: Kind, parentId: Option<int>): (resp: Response)
    requires k != House
    ensures !Authenticated(caller) ==> resp == Unauthorized
    ensures Authenticated(caller) && Check(t, caller.value, Up(k), parentId).Some? ==>
      resp == Check(t, caller.value, Up(k), parentId).value
    ensures resp.status == 200 <==>
      Authenticated(caller) && parentId.Some? && OwnerId(t, Up(k), parentId.value) == Success(caller.value)
    ensures resp.status == 200 ==>
      resp.body.Many? && forall x :: x in resp.body.rows <==> x in Table(t, k) && x.parent == parentId.value
  {
    if !Authenticated(caller) then Unauthorized
    else match Check(t, caller.value, Up(k), parentId)
      case Some(stop) => stop
      case None => Response(200, Many(FindByParent(Table(t, k), parentId.value)))
  }
}
