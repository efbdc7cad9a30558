/**
 * The database the model files talk to, as one object: the five tables and
 * the SERIAL sequences that hand out their ids. The model files' create,
 * update and delete statements are methods that change it; their reads are
 * the pure functions of module Tables, applied to its `t`.
 */
module Store {
  import opened Wrappers
  import opened Js
  import opened Tables
  import opened Cascade
  import opened UserQuery

  /** How a statement fails: a violated constraint, a syntax error, or no
      row in the RETURNING result for the caller to destructure. */
  datatype DbError = ForeignKeyViolation | UniqueViolation | NotNullViolation | NoRowReturned | SyntaxError

  /** What createUser returns: the new id, username and email, never the password. */
  datatype NewUser = NewUser(id: int, username: string, email: string)

  /** Every id of the table was handed out by its sequence, which starts at 1. */
  predicate IdsBelow(rows: seq<Row>, next: int)
  {
    forall r :: r in rows ==> 1 <= r.id < next
  }

  /** A user with that username or that email exists already. */
  predicate Taken(users: seq<User>, username: string, email: string)
  {
    exists u :: u in users && (u.username == username || u.email == email)
  }

  /** Another user than `u` has its username or its email. */
  predicate Clash(users: seq<User>, u: User)
  {
    exists v :: v in users && v.id != u.id && (v.username == u.username || v.email == u.email)
  }

  /** The users table after UPDATE users ... WHERE id = u.id wrote `u`. */
  function ReplaceUser(users: seq<User>, u: User): (r: seq<User>)
    ensures |r| == |users|
    ensures forall j :: 0 <= j < |users| ==> r[j] == if users[j].id == u.id then u else users[j]
  {
    seq(|users|, j requires 0 <= j < |users| => if users[j].id == u.id then u else users[j])
  }

  /** One assignment of the SET list applied to a user. */
  function Column(u: User, c: (string, string)): User
  {
    if c.0 == "username" then u.(username := c.1)
    else if c.0 == "password" then u.(password := c.1)
    else if c.0 == "email" then u.(email := c.1)
    else u
  }

  /** The user row after the SET list `a`. */
  function Assigned(u: User, a: seq<(string, string)>): User
    decreases |a|
  {
    if a == [] then u else Assigned(Column(u, a[0]), a[1..])
  }

  /** updateUser's statement changes exactly the truthy fields, stores the
      password as its hash, and never touches the id. */
  lemma AssignedFields(u: User, username: Option<string>, password: Option<string>, email: Option<string>,
                       hash: string -> string)
    ensures Assigned(u, Assignments(username, password, email, hash)) ==
      User(u.id,
           if Truthy(username) then username.value else u.username,
           if Truthy(password) then hash(password.value) else u.password,
           if Truthy(email) then email.value else u.email)
  {
    var a := Assignments(username, password, email, hash);
    var b := if Truthy(username) then [("username", username.value)] else [];
    var c := if Truthy(password) then [("password", hash(password.value))] else [];
    var d := if Truthy(email) then [("email", email.value)] else [];
    assert a == b + c + d;
    AssignedAppend(u, b, c + d);
    AssignedAppend(Assigned(u, b), c, d);
    assert b + (c + d) == b + c + d;
  }

  lemma {:induction false} AssignedAppend(u: User, a: seq<(string, string)>, b: seq<(string, string)>)
    decreases |a|
    ensures Assigned(u, a + b) == Assigned(Assigned(u, a), b)
  {
    if a != [] {
      assert (a + b)[0] == a[0];
      assert (a + b)[1..] == a[1..] + b;
      AssignedAppend(Column(u, a[0]), a[1..], b);
    } else {
      assert a + b == b;
    }
  }

  /** Appending a row with a fresh id whose foreign key exists keeps the
      primary keys and referential integrity. */
  lemma AppendKeepsLinked(t: Tables, k: Kind, row: Row)
    requires Linked(t) && forall k' :: UniqueIds(Table(t, k'))
    requires row.id !in Ids(Table(t, k)) && row.parent in ParentIds(t, k)
    ensures var t' := WithTable(t, k, Table(t, k) + [row]);
      Linked(t') && forall k' :: UniqueIds(Table(t', k'))
  {
    var rows := Table(t, k);
    var t' := WithTable(t, k, rows + [row]);
    assert Ids(rows + [row]) == Ids(rows) + {row.id};
    assert forall k' :: ParentIds(t, k') <= ParentIds(t', k');
    forall k', x | x in Table(t', k') ensures x.parent in ParentIds(t', k') {
      if k' == k && x !in rows {
        assert x == row;
      }
    }
    forall i, j | 0 <= i < j < |rows + [row]| ensures (rows + [row])[i].id != (rows + [row])[j].id {
      if j == |rows| {
        assert rows[i] in rows;
      }
    }
  }

  /** The database's invariant: the primary keys, UNIQUE columns and
      foreign keys hold, and every id lies below its sequence's next value. */
  ghost predicate Consistent(t: Tables, nextUser: int, next: map<Kind, int>)
  {
    && AllUnique(t)
    && Linked(t)
    && 1 <= nextUser
    && (forall u :: u in t.users ==> 1 <= u.id < nextUser)
    && (forall k :: k in next && 1 <= next[k] && IdsBelow(Table(t, k), next[k]))
  }

  /** Inserting a row whose id the sequence has already handed out, and
      whose foreign key holds, keeps the store consistent. */
  lemma InsertKeeps(t: Tables, nextUser: int, next: map<Kind, int>, k: Kind, row: Row)
    requires Consistent(t, nextUser, next)
    requires 1 <= row.id < next[k] && row.id !in Ids(Table(t, k)) && row.parent in ParentIds(t, k)
    ensures Consistent(WithTable(t, k, Table(t, k) + [row]), nextUser, next)
  {
    AppendKeepsLinked(t, k, row);
    var t' := WithTable(t, k, Table(t, k) + [row]);
    forall k' ensures k' in next && 1 <= next[k'] && IdsBelow(Table(t', k'), next[k']) {
      if k' == k {
        assert forall r :: r in Table(t', k) ==> r in Table(t, k) || r == row;
      }
    }
  }

  /** A serial consumed without an insert keeps the store consistent. */
  lemma BumpKeeps(t: Tables, nextUser: int, next: map<Kind, int>, k: Kind)
    requires Consistent(t, nextUser, next)
    ensures Consistent(t, nextUser, next[k := next[k] + 1])
  {
    var next' := next[k := next[k] + 1];
    forall k' ensures k' in next' && 1 <= next'[k'] && IdsBelow(Table(t, k'), next'[k']) {
      assert k' in next && IdsBelow(Table(t, k'), next[k']);
    }
  }

  lemma UpdateKeeps(t: Tables, nextUser: int, next: map<Kind, int>, k: Kind, id: int, c: Change)
    requires Consistent(t, nextUser, next)
    ensures Consistent(WithTable(t, k, UpdateRows(Table(t, k), id, c)), nextUser, next)
  {
    var t' := WithTable(t, k, UpdateRows(Table(t, k), id, c));
    UpdateKeepsLinks(Table(t, k), id, c);
    assert SameLinks(t', t);
    SameLinksKeeps(t', t);
    forall k' ensures IdsBelow(Table(t', k'), next[k']) {
      LinksIds(Table(t', k'), Table(t, k'));
      forall r | r in Table(t', k') ensures 1 <= r.id < next[k'] {
        assert r.id in Ids(Table(t, k'));
      }
    }
  }

  lemma DeleteKeeps(t: Tables, nextUser: int, next: map<Kind, int>, k: Kind, id: int)
    requires Consistent(t, nextUser, next)
    ensures Consistent(DeleteRow(t, k, id), nextUser, next)
  {
    DeleteKeepsLinked(t, k, id);
    DeleteShrinks(t, k, id);
  }

  lemma CreateUserKeeps(t: Tables, nextUser: int, next: map<Kind, int>, u: User)
    requires Consistent(t, nextUser, next)
    requires u.id == nextUser && !Taken(t.users, u.username, u.email)
    ensures u.id !in UserIds(t.users)
    ensures Consistent(t.(users := t.users + [u]), nextUser + 1, next)
  {
    var users := t.users + [u];
    forall i, j | 0 <= i < j < |users|
      ensures users[i].id != users[j].id && users[i].username != users[j].username && users[i].email != users[j].email
    {
      if j == |t.users| {
        assert users[i] in t.users;
      }
    }
    assert UserIds(users) == UserIds(t.users) + {u.id};
    var t' := t.(users := users);
    assert forall k :: Table(t', k) == Table(t, k);
    assert forall k :: ParentIds(t, k) <= ParentIds(t', k);
  }

  lemma UpdateUserKeeps(t: Tables, nextUser: int, next: map<Kind, int>, u: User)
    requires Consistent(t, nextUser, next)
    requires u.id in UserIds(t.users) && !Clash(t.users, u)
    ensures Consistent(t.(users := ReplaceUser(t.users, u)), nextUser, next)
  {
    var users := ReplaceUser(t.users, u);
    assert UserIds(users) == UserIds(t.users) by {
      forall x | x in UserIds(t.users) ensures x in UserIds(users) {
        var i :| 0 <= i < |t.users| && t.users[i].id == x;
        assert users[i] in users;
      }
    }
    forall i, j | 0 <= i < j < |users|
      ensures users[i].id != users[j].id && users[i].username != users[j].username && users[i].email != users[j].email
    {
      assert t.users[i] in t.users && t.users[j] in t.users;
    }
    var t' := t.(users := users);
    assert forall k :: Table(t', k) == Table(t, k);
    assert forall k :: ParentIds(t, k) == ParentIds(t', k);
  }

  class Database {
    var t: Tables
    /** The next value of users_id_seq. */
    var nextUser: int
    /** The next value of the id sequence of each entity table. */
    var next: map<Kind, int>

    ghost predicate Valid()
      reads this
    {
      Consistent(t, nextUser, next)
    }

    /** The empty schema, every sequence at 1. */
    constructor()
      ensures Valid()
      ensures t == Tables([], [], [], [], [])
    {
      t := Tables([], [], [], [], []);
      nextUser := 1;
      next := map[House := 1, Room := 1, Appliance := 1, Part := 1];
      new;
      assert forall k :: k in next by {
        forall k ensures k in next {
          match k
          case House => case Room => case Appliance => case Part =>
        }
      }
    }

    /** nextval on the id sequence of table k. */
    method NextVal(k: Kind) returns (id: int)
      requires Valid()
      modifies this
      ensures Valid()
      ensures id == old(next[k]) && 1 <= id && IdsBelow(Table(t, k), id)
      ensures t == old(t) && nextUser == old(nextUser) && next == old(next)[k := id + 1]
    {
      id := next[k];
      BumpKeeps(t, nextUser, next, k);
      next := next[k := id + 1];
    }

    /** The row an INSERT adds, once its id is drawn and its foreign key holds. */
    method Insert(k: Kind, row: Row)
      requires Valid()
      requires 1 <= row.id < next[k] && row.id !in Ids(Table(t, k)) && row.parent in ParentIds(t, k)
      modifies this
      ensures Valid()
      ensures t == WithTable(old(t), k, Table(old(t), k) + [row])
      ensures nextUser == old(nextUser) && next == old(next)
    {
      InsertKeeps(t, nextUser, next, k, row);
      t := WithTable(t, k, Table(t, k) + [row]);
    }

    /** createHouse / createRoom / createAppliance / createPart: INSERT ...
        RETURNING the new row. nextval is drawn before the foreign key is
        checked, so a failed insert still uses up an id. */
    method Create(k: Kind, name: string, parent: int, reminder: Option<int>, details: Details)
      returns (r: Result<Row, DbError>)
      requires Valid()
      modifies this
      ensures Valid()
      ensures nextUser == old(nextUser) && next == old(next)[k := old(next[k]) + 1]
      ensures r.Success? <==> parent in ParentIds(old(t), k)
      ensures r.Failure? ==> r.error == ForeignKeyViolation && t == old(t)
      ensures r.Success? ==>
        && r.value == Row(old(next[k]), name, parent, reminder, details)
        && r.value.id !in Ids(Table(old(t), k))
        && t == WithTable(old(t), k, Table(old(t), k) + [r.value])
    {
      var id := NextVal(k);
      if parent !in ParentIds(t, k) {
        return Failure(ForeignKeyViolation);
      }
      var row := Row(id, name, parent, reminder, details);
      Insert(k, row);
      r := Success(row);
    }

    /** UPDATE <table> SET ... WHERE id = $1 RETURNING ...: the caller
        destructures the first returned row, so an absent id fails. */
    method Update(k: Kind, id: int, c: Change) returns (r: Result<Row, DbError>)
      requires Valid()
      modifies this
      ensures Valid()
      ensures nextUser == old(nextUser) && next == old(next)
      ensures r.Success? <==> id in Ids(Table(old(t), k))
      ensures r.Failure? ==> r.error == NoRowReturned && unchanged(this)
      ensures r.Success? ==>
        && r.value == Apply(c, FindById(Table(old(t), k), id).value)
        && t == WithTable(old(t), k, UpdateRows(Table(old(t), k), id, c))
    {
      var found := FindById(Table(t, k), id);
      if found.None? {
        return Failure(NoRowReturned);
      }
      UpdateKeeps(t, nextUser, next, k, id, c);
      t := WithTable(t, k, UpdateRows(Table(t, k), id, c));
      r := Success(Apply(c, found.value));
    }

    /** updateHouse / updateRoom / updateAppliance / updatePart: only the name
        is set. A missing name is bound as NULL and violates NOT NULL on a row
        that exists. */
    method Rename(k: Kind, id: int, name: Option<string>) returns (r: Result<Row, DbError>)
      requires Valid()
      modifies this
      ensures Valid()
      ensures nextUser == old(nextUser) && next == old(next)
      ensures r.Success? <==> id in Ids(Table(old(t), k)) && name.Some?
      ensures id !in Ids(Table(old(t), k)) ==> r == Failure(NoRowReturned)
      ensures id in Ids(Table(old(t), k)) && name.None? ==> r == Failure(NotNullViolation)
      ensures r.Failure? ==> unchanged(this)
      ensures r.Success? ==>
        && r.value == FindById(Table(old(t), k), id).value.(name := name.value)
        && t == WithTable(old(t), k, UpdateRows(Table(old(t), k), id, SetName(name.value)))
    {
      if id !in Ids(Table(t, k)) {
        return Failure(NoRowReturned);
      }
      if name.None? {
        return Failure(NotNullViolation);
      }
      r := Update(k, id, SetName(name.value));
    }

    /** deleteHouse / deleteRoom / deleteAppliance / deletePart, with the
        ON DELETE CASCADE the schema declares. */
    method Delete(k: Kind, id: int)
      requires Valid()
      modifies this
      ensures Valid()
      ensures nextUser == old(nextUser) && next == old(next)
      ensures t == DeleteRow(old(t), k, id)
    {
      DeleteKeeps(t, nextUser, next, k, id);
      t := DeleteRow(t, k, id);
    }

    /** createUser: INSERT INTO users ... RETURNING id, username, email. The
        UNIQUE username and email reject a duplicate; the id is used up either way. */
    method CreateUser(username: string, password: string, email: string) returns (r: Result<NewUser, DbError>)
      requires Valid()
      modifies this
      ensures Valid()
      ensures next == old(next) && nextUser == old(nextUser) + 1
      ensures r.Success? <==> !Taken(old(t).users, username, email)
      ensures r.Failure? ==> r.error == UniqueViolation && t == old(t)
      ensures r.Success? ==>
        && r.value == NewUser(old(nextUser), username, email)
        && old(nextUser) !in UserIds(old(t).users)
        && t == old(t).(users := old(t).users + [User(old(nextUser), username, password, email)])
    {
      var id := nextUser;
      if Taken(t.users, username, email) {
        nextUser := nextUser + 1;
        return Failure(UniqueViolation);
      }
      nextUser := nextUser + 1;
      var u := User(id, username, password, email);
      CreateUserKeeps(t, id, next, u);
      t := t.(users := t.users + [u]);
      r := Success(NewUser(id, username, email));
    }

    /** updateUser: builds the statement, runs it, and answers null when no
        row has the id. With no field given the statement does not parse. */
    method UpdateUser(id: int, username: Option<string>, password: Option<string>, email: Option<string>,
                      hash: string -> string) returns (r: Result<Option<User>, DbError>)
      requires Valid()
      modifies this
      ensures Valid()
      ensures next == old(next) && nextUser == old(nextUser)
      ensures r == Failure(SyntaxError) <==> !Truthy(username) && !Truthy(password) && !Truthy(email)
      ensures (Truthy(username) || Truthy(password) || Truthy(email)) && id !in UserIds(old(t).users) ==>
        r == Success(None)
      ensures r.Failure? || r == Success(None) ==> t == old(t)
      ensures r.Success? && r.value.Some? ==>
        var before := FindUser(old(t).users, id).value;
        && r.value.value == User(id,
             if Truthy(username) then username.value else before.username,
             if Truthy(password) then hash(password.value) else before.password,
             if Truthy(email) then email.value else before.email)
        && !Clash(old(t).users, r.value.value)
        && t == old(t).(users := ReplaceUser(old(t).users, r.value.value))
      ensures r == Failure(UniqueViolation) ==> id in UserIds(old(t).users)
      ensures r.Failure? ==> r.error == SyntaxError || r.error == UniqueViolation
      ensures (Truthy(username) || Truthy(password) || Truthy(email)) && id in UserIds(old(t).users) ==>
        var after := Assigned(FindUser(old(t).users, id).value, Assignments(username, password, email, hash));
        (r.Success? <==> !Clash(old(t).users, after)) && (r.Success? ==> r == Success(Some(after)))
    {
      var query, values := BuildUpdate(id, username, password, email, hash);
      var a := Assignments(username, password, email, hash);
      UpdateTextWellFormed(a);
      if !WellFormed(query) {
        return Failure(SyntaxError);
      }
      var found := FindUser(t.users, id);
      if found.None? {
        return Success(None);
      }
      var u := Assigned(found.value, a);
      AssignedFields(found.value, username, password, email, hash);
      if Clash(t.users, u) {
        return Failure(UniqueViolation);
      }
      UpdateUserKeeps(t, nextUser, next, u);
      t := t.(users := ReplaceUser(t.users, u));
      r := Success(Some(u));
    }
  }
}
