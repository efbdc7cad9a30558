/**
 * The relational store behind the backend, as values: the users table and the
 * four entity tables (houses, rooms, appliances, parts), each a sequence of
 * rows in table order (the order in which PostgreSQL returns an unordered
 * SELECT on a table that only ever grows at the end).
 *
 * The read-only queries of the model files are pure functions here: findById,
 * the find-by-parent queries (findByUserId, findByHouseId, findByRoomId,
 * findByApplianceId) and the due-reminder query the scheduler calls
 * (findAllWithPastReminderDate).
 */
module Tables {
  import opened Wrappers

  /** The four entity tables, from the top of the ownership tree down. */
  datatype Kind = House | Room | Appliance | Part

  /** How far below the houses table a kind sits. */
  function Depth(k: Kind): nat
  {
    match k
    case House => 0
    case Room => 1
    case Appliance => 2
    case Part => 3
  }

  /** The table a row of kind `k` points into with its foreign key (houses point into users). */
  function Up(k: Kind): (p: Kind)
    requires k != House
    ensures Depth(p) + 1 == Depth(k)
  {
    match k
    case Room => House
    case Appliance => Room
    case Part => Appliance
  }

  /** The table whose foreign key points into table `k`. */
  function Down(k: Kind): (c: Kind)
    requires k != Part
    ensures c != House && Up(c) == k
  {
    match k
    case House => Room
    case Room => Appliance
    case Appliance => Part
  }

  /** The columns of a row besides id, name, parent and reminder date
      (year built, address, description, square footage, model, brand,
      purchase date, website link), carried as opaque text. */
  type Details = seq<string>

  /** One row of an entity table: `parent` is user_id, house_id, room_id or
      appliance_id; `reminder` is reminder_date as a timestamp, NULL as None. */
  datatype Row = Row(id: int, name: string, parent: int, reminder: Option<int>, details: Details)

  /** One row of the users table; `password` holds the stored (hashed) password. */
  datatype User = User(id: int, username: string, password: string, email: string)

  datatype Tables = Tables(users: seq<User>, houses: seq<Row>, rooms: seq<Row>,
                           appliances: seq<Row>, parts: seq<Row>)

  function Table(t: Tables, k: Kind): seq<Row>
  {
    match k
    case House => t.houses
    case Room => t.rooms
    case Appliance => t.appliances
    case Part => t.parts
  }

  /** The store with table `k` replaced by `rows` and every other table as it was. */
  function WithTable(t: Tables, k: Kind, rows: seq<Row>): (t': Tables)
    ensures Table(t', k) == rows && t'.users == t.users
    ensures forall k' :: k' != k ==> Table(t', k') == Table(t, k')
  {
    match k
    case House => t.(houses := rows)
    case Room => t.(rooms := rows)
    case Appliance => t.(appliances := rows)
    case Part => t.(parts := rows)
  }

  function Ids(rows: seq<Row>): set<int>
  {
    set r | r in rows :: r.id
  }

  function UserIds(users: seq<User>): set<int>
  {
    set u | u in users :: u.id
  }

  /** The PRIMARY KEY of an entity table. */
  predicate UniqueIds(rows: seq<Row>)
  {
    forall i, j :: 0 <= i < j < |rows| ==> rows[i].id != rows[j].id
  }

  /** The PRIMARY KEY and the two UNIQUE columns of the users table. */
  predicate UniqueUsers(users: seq<User>)
  {
    forall i, j :: 0 <= i < j < |users| ==>
      users[i].id != users[j].id && users[i].username != users[j].username && users[i].email != users[j].email
  }

  predicate AllUnique(t: Tables)
  {
    UniqueUsers(t.users) && forall k :: UniqueIds(Table(t, k))
  }

  /** The ids a row of kind `k` may refer to: user ids for houses, the parent table's ids otherwise. */
  function ParentIds(t: Tables, k: Kind): set<int>
  {
    if k == House then UserIds(t.users) else Ids(Table(t, Up(k)))
  }

  /** Referential integrity: every REFERENCES foreign key points at an existing row. */
  predicate Linked(t: Tables)
  {
    forall k, r :: r in Table(t, k) ==> r.parent in ParentIds(t, k)
  }

  /** The WHERE clauses the model issues against an entity table. */
  datatype Where =
    | ParentIs(parent: int)          // user_id / house_id / room_id / appliance_id = $1
    | DueBy(now: int)                // reminder_date IS NOT NULL AND reminder_date <= $1
    | IdNotIn(ids: set<int>)         // rows a DELETE ... WHERE id = $1 keeps
    | ParentNotIn(parents: set<int>) // rows an ON DELETE CASCADE keeps

  predicate Matches(w: Where, r: Row)
  {
    match w
    case ParentIs(p) => r.parent == p
    case DueBy(now) => r.reminder.Some? && r.reminder.value <= now
    case IdNotIn(ids) => r.id !in ids
    case ParentNotIn(ps) => r.parent !in ps
  }

  /** SELECT * FROM rows WHERE w, in table order. */
  function Select(rows: seq<Row>, w: Where): (r: seq<Row>)
    ensures forall x :: x in r <==> x in rows && Matches(w, x)
    ensures |r| <= |rows|
  {
    if rows == [] then []
    else (if Matches(w, rows[0]) then [rows[0]] else []) + Select(rows[1..], w)
  }

  /** A selection keeps the table order: selecting from a concatenation selects from each part. */
  lemma {:induction false} SelectAppend(a: seq<Row>, b: seq<Row>, w: Where)
    ensures Select(a + b, w) == Select(a, w) + Select(b, w)
  {
    if a == [] {
      assert a + b == b;
    } else {
      assert (a + b)[0] == a[0];
      assert (a + b)[1..] == a[1..] + b;
      SelectAppend(a[1..], b, w);
    }
  }

  /** A selection every row satisfies returns the table unchanged. */
  lemma {:induction false} SelectAll(rows: seq<Row>, w: Where)
    requires forall x :: x in rows ==> Matches(w, x)
    ensures Select(rows, w) == rows
  {
    if rows != [] {
      SelectAll(rows[1..], w);
    }
  }

  /** findById: the first row with that id, None exactly when no row has it. */
  function FindById(rows: seq<Row>, id: int): (r: Option<Row>)
    ensures r.None? <==> id !in Ids(rows)
    ensures r.Some? ==> r.value in rows && r.value.id == id
  {
    if rows == [] then None
    else if rows[0].id == id then Some(rows[0])
    else
      assert Ids(rows) == {rows[0].id} + Ids(rows[1..]) by {
        assert forall x :: x in rows <==> x == rows[0] || x in rows[1..];
      }
      FindById(rows[1..], id)
  }

  /** Under the primary key, findById returns the one row with that id. */
  lemma {:induction false} FindByIdUnique(rows: seq<Row>, x: Row)
    requires UniqueIds(rows) && x in rows
    ensures FindById(rows, x.id) == Some(x)
  {
    var i :| 0 <= i < |rows| && rows[i] == x;
    var r := FindById(rows, x.id);
    var j :| 0 <= j < |rows| && rows[j] == r.value;
    assert i == j;
  }

  /** The users table's findById: None exactly when no user has that id. */
  function FindUser(users: seq<User>, id: int): (r: Option<User>)
    ensures r.None? <==> id !in UserIds(users)
    ensures r.Some? ==> r.value in users && r.value.id == id
  {
    if users == [] then None
    else if users[0].id == id then Some(users[0])
    else
      assert UserIds(users) == {users[0].id} + UserIds(users[1..]) by {
        assert forall x :: x in users <==> x == users[0] || x in users[1..];
      }
      FindUser(users[1..], id)
  }

  /** findByUsername: None exactly when no user has that name. */
  function FindByUsername(users: seq<User>, username: string): (r: Option<User>)
    ensures r.None? <==> forall u :: u in users ==> u.username != username
    ensures r.Some? ==> r.value in users && r.value.username == username
  {
    if users == [] then None
    else if users[0].username == username then Some(users[0])
    else FindByUsername(users[1..], username)
  }

  /** findByUserId, findByHouseId, findByRoomId, findByApplianceId: exactly the
      rows whose foreign key is `parent`, in table order. */
  function FindByParent(rows: seq<Row>, parent: int): (r: seq<Row>)
    ensures forall x :: x in r <==> x in rows && x.parent == parent
  {
    Select(rows, ParentIs(parent))
  }

  /** findAllWithPastReminderDate(now): exactly the rows whose reminder is set
      and not later than `now`, in table order. */
  function Due(rows: seq<Row>, now: int): (r: seq<Row>)
    ensures forall x :: x in r <==> x in rows && x.reminder.Some? && x.reminder.value <= now
  {
    Select(rows, DueBy(now))
  }

  /** The SET list of an UPDATE on an entity table: the model files' rename,
      or the full-row write the reminder sweep issues (every column but the id
      and the foreign key). */
  datatype Change =
    | SetName(name: string)
    | SetRow(name: string, reminder: Option<int>, details: Details)

  /** A row after the SET list: the id and the foreign key never change. */
  function Apply(c: Change, x: Row): (y: Row)
    ensures y.id == x.id && y.parent == x.parent
    ensures y.name == c.name
    ensures c.SetName? ==> y.reminder == x.reminder && y.details == x.details
    ensures c.SetRow? ==> y.reminder == c.reminder && y.details == c.details
  {
    match c
    case SetName(n) => x.(name := n)
    case SetRow(n, rem, d) => x.(name := n, reminder := rem, details := d)
  }

  /** UPDATE <table> SET c WHERE id = $1: the rows with that id change in
      place, every other row stays as it was. */
  function UpdateRows(rows: seq<Row>, id: int, c: Change): (r: seq<Row>)
    ensures |r| == |rows|
    ensures forall j :: 0 <= j < |rows| && rows[j].id != id ==> r[j] == rows[j]
    ensures forall j :: 0 <= j < |rows| && rows[j].id == id ==> r[j] == Apply(c, rows[j])
  {
    seq(|rows|, j requires 0 <= j < |rows| => if rows[j].id == id then Apply(c, rows[j]) else rows[j])
  }

  /** The (id, foreign key) pairs of a table, in table order: all that the
      ownership chain and the primary key look at. */
  function Links(rows: seq<Row>): (l: seq<(int, int)>)
    ensures |l| == |rows|
  {
    seq(|rows|, j requires 0 <= j < |rows| => (rows[j].id, rows[j].parent))
  }

  /** Two stores that differ at most in names, reminders and other columns. */
  predicate SameLinks(t1: Tables, t2: Tables)
  {
    t1.users == t2.users && forall k :: Links(Table(t1, k)) == Links(Table(t2, k))
  }

  /** An UPDATE never touches an id or a foreign key. */
  lemma UpdateKeepsLinks(rows: seq<Row>, id: int, c: Change)
    ensures Links(UpdateRows(rows, id, c)) == Links(rows)
  {
  }

  /** Tables with the same (id, foreign key) pairs have the same ids, and the
      same primary-key property. */
  lemma LinksIds(r1: seq<Row>, r2: seq<Row>)
    requires Links(r1) == Links(r2)
    ensures Ids(r1) == Ids(r2)
    ensures UniqueIds(r1) <==> UniqueIds(r2)
  {
    forall x | x in Ids(r1) ensures x in Ids(r2) {
      var i :| 0 <= i < |r1| && r1[i].id == x;
      assert Links(r1)[i].0 == x;
      assert r2[i] in r2;
    }
    forall x | x in Ids(r2) ensures x in Ids(r1) {
      var i :| 0 <= i < |r2| && r2[i].id == x;
      assert Links(r2)[i].0 == x;
      assert r1[i] in r1;
    }
    assert forall i :: 0 <= i < |r1| ==> r1[i].id == Links(r1)[i].0 == r2[i].id;
  }

  /** SameLinks keeps referential integrity and the primary keys. */
  lemma SameLinksKeeps(t1: Tables, t2: Tables)
    requires SameLinks(t1, t2)
    ensures Linked(t1) <==> Linked(t2)
    ensures (forall k :: UniqueIds(Table(t1, k))) <==> (forall k :: UniqueIds(Table(t2, k)))
  {
    forall k ensures Ids(Table(t1, k)) == Ids(Table(t2, k)) && (UniqueIds(Table(t1, k)) <==> UniqueIds(Table(t2, k))) {
      LinksIds(Table(t1, k), Table(t2, k));
    }
    assert forall k :: ParentIds(t1, k) == ParentIds(t2, k);
    if Linked(t1) {
      forall k, r | r in Table(t2, k) ensures r.parent in ParentIds(t2, k) {
        var i :| 0 <= i < |Table(t2, k)| && Table(t2, k)[i] == r;
        assert Links(Table(t1, k))[i] == Links(Table(t2, k))[i];
        assert Table(t1, k)[i] in Table(t1, k);
      }
    }
    if Linked(t2) {
      forall k, r | r in Table(t1, k) ensures r.parent in ParentIds(t1, k) {
        var i :| 0 <= i < |Table(t1, k)| && Table(t1, k)[i] == r;
        assert Links(Table(t1, k))[i] == Links(Table(t2, k))[i];
        assert Table(t2, k)[i] in Table(t2, k);
      }
    }
  }

  /** findById on tables with the same (id, foreign key) pairs finds a row in
      both or in neither, and the two rows have the same foreign key. */
  lemma {:induction false} FindByIdLinks(r1: seq<Row>, r2: seq<Row>, id: int)
    requires Links(r1) == Links(r2)
    ensures FindById(r1, id).Some? == FindById(r2, id).Some?
    ensures FindById(r1, id).Some? ==> FindById(r1, id).value.parent == FindById(r2, id).value.parent
  {
    if r1 != [] {
      assert Links(r1)[0] == Links(r2)[0];
      assert Links(r1[1..]) == Links(r1)[1..];
      assert Links(r2[1..]) == Links(r2)[1..];
      FindByIdLinks(r1[1..], r2[1..], id);
    }
  }

  /** Under the primary key, findById after an UPDATE of that id returns the
      updated row. */
  lemma FindAfterUpdate(rows: seq<Row>, id: int, c: Change)
    requires UniqueIds(rows) && id in Ids(rows)
    ensures FindById(UpdateRows(rows, id, c), id) == Some(Apply(c, FindById(rows, id).value))
  {
    var x := FindById(rows, id).value;
    var i :| 0 <= i < |rows| && rows[i] == x;
    var r := UpdateRows(rows, id, c);
    UpdateKeepsLinks(rows, id, c);
    LinksIds(rows, r);
    FindByIdUnique(r, r[i]);
  }
}
