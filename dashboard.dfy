/**
 * getDashboardData: the caller's houses, each with its rooms, each room with
 * its appliances, each appliance with its parts. Read-only.
 */
module DashboardController {
  import opened Wrappers
  import opened Tables
  import opened Ownership
  import opened Http
  import opened Guard

  /** The appliances of a room, each spread with its parts. */
  function ApplianceNodes(t: Tables, roomId: int): (r: seq<ApplianceNode>)
    ensures forall n :: n in r ==>
      n.appliance in t.appliances && n.appliance.parent == roomId &&
      forall p :: p in n.parts <==> p in t.parts && p.parent == n.appliance.id
    ensures forall a :: a in t.appliances && a.parent == roomId ==> exists n :: n in r && n.appliance == a
  {
    var appliances := FindByParent(t.appliances, roomId);
    var r := seq(|appliances|, i requires 0 <= i < |appliances| =>
      ApplianceNode(appliances[i], FindByParent(t.parts, appliances[i].id)));
    forall a | a in t.appliances && a.parent == roomId ensures exists n :: n in r && n.appliance == a {
      var i :| 0 <= i < |appliances| && appliances[i] == a;
      assert r[i] in r;
    }
    r
  }

  /** The rooms of a house, each spread with its appliance nodes. */
  function RoomNodes(t: Tables, houseId: int): (r: seq<RoomNode>)
    ensures forall n :: n in r ==>
      n.room in t.rooms && n.room.parent == houseId && n.appliances == ApplianceNodes(t, n.room.id)
    ensures forall x :: x in t.rooms && x.parent == houseId ==> exists n :: n in r && n.room == x
  {
    var rooms := FindByParent(t.rooms, houseId);
    var r := seq(|rooms|, i requires 0 <= i < |rooms| => RoomNode(rooms[i], ApplianceNodes(t, rooms[i].id)));
    forall x | x in t.rooms && x.parent == houseId ensures exists n :: n in r && n.room == x {
      var i :| 0 <= i < |rooms| && rooms[i] == x;
      assert r[i] in r;
    }
    r
  }

  /** One node per house of `user`, in the order findByUserId returns them. */
  function Dashboard(t: Tables, user: int): (r: seq<HouseNode>)
    ensures |r| == |FindByParent(t.houses, user)|
    ensures forall i :: 0 <= i < |r| ==> r[i].house == FindByParent(t.houses, user)[i]
    ensures forall n :: n in r ==> n.house in t.houses && n.house.parent == user && n.rooms == RoomNodes(t, n.house.id)
  {
    var houses := FindByParent(t.houses, user);
    seq(|houses|, i requires 0 <= i < |houses| => HouseNode(houses[i], RoomNodes(t, houses[i].id)))
  }

  /** getDashboardData: 401 without a caller; an empty list when the caller
      owns no house; else the tree. */
  function GetDashboardData(t: Tables, caller: Option<int>): (resp: Response)
    ensures !Authenticated(caller) ==> resp == Unauthorized
    ensures Authenticated(caller) ==> resp == Response(200, Board(Dashboard(t, caller.value)))
    ensures Authenticated(caller) && (forall h :: h in t.houses ==> h.parent != caller.value) ==>
      resp.body == Board([])
  {
    if !Authenticated(caller) then Unauthorized
    else
      var houses := FindByParent(t.houses, caller.value);
      if houses == [] then Response(200, Board([]))
      else
        assert houses[0] in houses;
        Response(200, Board(Dashboard(t, caller.value)))
  }

  /** A part shown on the board of `user`, under some appliance, room and house. */
  ghost predicate OnBoard(b: seq<HouseNode>, p: Row)
  {
    exists h, r, a :: h in b && r in h.rooms && a in r.appliances && p in a.parts
  }

  /** The links of a chain from a part up to a house of `user`. */
  predicate Chain(t: Tables, user: int, p: Row, a: Row, r: Row, h: Row)
  {
    && p in t.parts && a in t.appliances && a.id == p.parent
    && r in t.rooms && r.id == a.parent
    && h in t.houses && h.id == r.parent && h.parent == user
  }

  /** Nothing from another user's house is on the board: a part on it has
      its chain up to a house of `user`. */
  lemma OnBoardChained(t: Tables, user: int, p: Row) returns (a: Row, r: Row, h: Row)
    requires OnBoard(Dashboard(t, user), p)
    ensures Chain(t, user, p, a, r, h)
  {
    var b := Dashboard(t, user);
    var hn, rn, an :| hn in b && rn in hn.rooms && an in rn.appliances && p in an.parts;
    assert rn in RoomNodes(t, hn.house.id);
    assert an in ApplianceNodes(t, rn.room.id);
    a, r, h := an.appliance, rn.room, hn.house;
  }

  /** Nothing of the user's is missing from the board. */
  lemma ChainedOnBoard(t: Tables, user: int, p: Row, a: Row, r: Row, h: Row)
    requires Chain(t, user, p, a, r, h)
    ensures OnBoard(Dashboard(t, user), p)
  {
    var b := Dashboard(t, user);
    var houses := FindByParent(t.houses, user);
    var i :| 0 <= i < |houses| && houses[i] == h;
    var hn := b[i];
    assert hn in b && hn.rooms == RoomNodes(t, h.id);
    var rn :| rn in hn.rooms && rn.room == r;
    assert rn.appliances == ApplianceNodes(t, r.id);
    var an :| an in rn.appliances && an.appliance == a;
    assert p in an.parts;
  }

  /** Under the primary keys, a chain of rows is what the handlers' lookups find. */
  lemma ChainOwner(t: Tables, user: int, p: Row, a: Row, r: Row, h: Row)
    requires UniqueIds(t.parts) && UniqueIds(t.appliances) && UniqueIds(t.rooms) && UniqueIds(t.houses)
    requires Chain(t, user, p, a, r, h)
    ensures OwnerId(t, Part, p.id) == Success(user)
  {
    FindByIdUnique(t.houses, h);
    assert OwnerId(t, House, r.parent) == Success(user);
    FindByIdUnique(t.rooms, r);
    assert OwnerId(t, Room, a.parent) == Success(user);
    FindByIdUnique(t.appliances, a);
    assert OwnerId(t, Appliance, p.parent) == Success(user);
    FindByIdUnique(t.parts, p);
  }

  /** The rows the handlers' lookups find form a chain. */
  lemma OwnerChained(t: Tables, user: int, p: Row) returns (a: Row, r: Row, h: Row)
    requires UniqueIds(t.parts) && p in t.parts
    requires OwnerId(t, Part, p.id) == Success(user)
    ensures Chain(t, user, p, a, r, h)
  {
    FindByIdUnique(t.parts, p);
    a := FindById(t.appliances, p.parent).value;
    r := FindById(t.rooms, a.parent).value;
    h := FindById(t.houses, r.parent).value;
  }

  /** Under the primary keys, a part is on the board of `user` exactly when
      the ownership chain the handlers check leads from it to `user`: the
      board shows nothing of other users and leaves out nothing of the user's. */
  lemma OnBoardOwned(t: Tables, user: int, p: Row)
    requires UniqueIds(t.parts) && UniqueIds(t.appliances) && UniqueIds(t.rooms) && UniqueIds(t.houses)
    requires p in t.parts
    ensures OnBoard(Dashboard(t, user), p) <==> OwnerId(t, Part, p.id) == Success(user)
  {
    if OnBoard(Dashboard(t, user), p) {
      var a, r, h := OnBoardChained(t, user, p);
      ChainOwner(t, user, p, a, r, h);
    }
    if OwnerId(t, Part, p.id) == Success(user) {
      var a, r, h := OwnerChained(t, user, p);
      ChainedOnBoard(t, user, p, a, r, h);
    }
  }
}
