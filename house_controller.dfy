/**
 * The handlers of the house controller that have no counterpart in the other
 * controllers: fetch one house, create a house for the caller, list the
 * caller's houses. updateHouse and deleteHouse are EntityController's
 * UpdateEntity and DeleteEntity on the houses table.
 */
module HouseController {
  import opened Wrappers
  import opened Js
  import opened Tables
  import opened Ownership
  import opened Http
  import opened Guard
  import opened Store

  /** getHouseById: 401, then 400 when the id does not parse, 404 when no
      house has it, 403 when another user owns it, else the house. */
  function GetHouseById(t: Tables, caller: Option<int>, houseId: Option<int>): (resp: Response)
    ensures !Authenticated(caller) ==> resp == Unauthorized
    ensures Authenticated(caller) && houseId.None? ==> resp.status == 400
    ensures resp.status == 404 <==> Authenticated(caller) && houseId.Some? && houseId.value !in Ids(t.houses)
    ensures resp.status == 200 <==>
      Authenticated(caller) && houseId.Some? && OwnerId(t, House, houseId.value) == Success(caller.value)
    ensures resp.status == 403 <==>
      Authenticated(caller) && houseId.Some? && OwnerId(t, House, houseId.value).Success? &&
      OwnerId(t, House, houseId.value).value != caller.value
    ensures resp.status == 200 ==>
      resp.body.One? && resp.body.row in t.houses && resp.body.row.id == houseId.value && resp.body.row.parent == caller.value
  {
    if !Authenticated(caller) then Unauthorized
    else if houseId.None? then Response(400, Message("Invalid house ID format"))
    else match FindById(t.houses, houseId.value)
      case None => NotFound(House)
      case Some(house) =>
        if house.parent != caller.value then Response(403, Message("Forbidden: You do not own this house"))
        else Response(200, One(house))
  }

  /** createHouse: 400 without a truthy name, else a house owned by the
      caller. The foreign key to users fails (500) when the caller's user
      row no longer exists. */
  method CreateHouse(db: Database, caller: Option<int>, name: Option<string>, reminder: Option<int>, details: Details)
    returns (resp: Response)
    requires db.Valid()
    modifies db
    ensures db.Valid()
    ensures !Authenticated(caller) ==> resp == Unauthorized && unchanged(db)
    ensures Authenticated(caller) && !Truthy(name) ==> resp == Response(400, Message("Name is required")) && unchanged(db)
    ensures resp.status == 201 <==> Authenticated(caller) && Truthy(name) && caller.value in UserIds(old(db.t).users)
    ensures resp.status == 201 ==>
      var row := Row(old(db.next[House]), name.value, caller.value, reminder, details);
      && resp == Response(201, One(row))
      && db.t == WithTable(old(db.t), House, old(db.t).houses + [row])
    ensures Authenticated(caller) && Truthy(name) && caller.value !in UserIds(old(db.t).users) ==>
      resp == ServerError && db.t == old(db.t)
  {
    if !Authenticated(caller) {
      return Unauthorized;
    }
    if !Truthy(name) {
      return Response(400, Message("Name is required"));
    }
    var r := db.Create(House, name.value, caller.value, reminder, details);
    if r.Failure? {
      return ServerError;
    }
    resp := Response(201, One(r.value));
  }

  /** getHousesByUserId: the caller's houses and no other, in table order. */
  function GetHousesByUserId(t: Tables, caller: Option<int>): (resp: Response)
    ensures !Authenticated(caller) ==> resp == Unauthorized
    ensures Authenticated(caller) ==>
      resp.status == 200 && resp.body.Many? &&
      forall x :: x in resp.body.rows <==> x in t.houses && x.parent == caller.value
  {
    if !Authenticated(caller) then Unauthorized
    else Response(200, Many(FindByParent(t.houses, caller.value)))
  }
}
