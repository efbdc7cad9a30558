/**
 * The statement text and bound values that the users model's updateUser
 * builds: one "column = $n, " per field given, in the fixed order username,
 * password, email, then the trailing ", " cut off and the WHERE clause on the
 * id appended with the next placeholder number.
 */
module UserQuery {
  import opened Wrappers
  import opened Js

  /** A value bound to a placeholder. */
  datatype Value = Text(s: string) | Int(n: int)

  function DigitChar(d: nat): (c: char)
    requires d < 10
  {
    "0123456789"[d]
  }

  /** The decimal text of a placeholder number, as a template literal prints it. */
  function Decimal(n: nat): (s: string)
    ensures |s| >= 1
  {
    if n < 10 then [DigitChar(n)] else Decimal(n / 10) + [DigitChar(n % 10)]
  }

  /** The columns updateUser sets, in its fixed order, each with the text bound
      to it: a field is set only when truthy, and a password is bound as its hash. */
  function Assignments(username: Option<string>, password: Option<string>, email: Option<string>,
                       hash: string -> string): (a: seq<(string, string)>)
    ensures |a| <= 3
    ensures |a| == 0 <==> !Truthy(username) && !Truthy(password) && !Truthy(email)
  {
    (if Truthy(username) then [("username", username.value)] else [])
    + (if Truthy(password) then [("password", hash(password.value))] else [])
    + (if Truthy(email) then [("email", email.value)] else [])
  }

  /** "column = $n" */
  function Assign(column: string, n: nat): string
  {
    column + " = $" + Decimal(n)
  }

  /** The SET list "c1 = $n, c2 = $n+1, ...": the i-th column bound to placeholder n + i. */
  function SetList(a: seq<(string, string)>, n: nat): string
    requires |a| > 0
  {
    if |a| == 1 then Assign(a[0].0, n)
    else Assign(a[0].0, n) + ", " + SetList(a[1..], n + 1)
  }

  /** The text the builder has accumulated after appending "column = $k, " for
      each of the columns `a`, numbering from `n`. */
  function Appended(a: seq<(string, string)>, n: nat): string
  {
    if a == [] then "" else Appended(a[..|a| - 1], n) + Assign(a[|a| - 1].0, n + |a| - 1) + ", "
  }

  lemma {:induction false} AppendedFront(a: seq<(string, string)>, n: nat)
    requires |a| > 0
    ensures Appended(a, n) == Assign(a[0].0, n) + ", " + Appended(a[1..], n + 1)
  {
    if |a| > 1 {
      var init := a[..|a| - 1];
      AppendedFront(init, n);
      assert init[1..] == a[1..][..|a[1..]| - 1];
      assert a[1..][|a[1..]| - 1] == a[|a| - 1];
    } else {
      assert a[..|a| - 1] == [];
      assert a[1..] == [];
    }
  }

  /** Cutting the trailing ", " off the accumulated text leaves the SET list. */
  lemma {:induction false} AppendedIsSetList(a: seq<(string, string)>, n: nat)
    requires |a| > 0
    ensures Appended(a, n) == SetList(a, n) + ", "
  {
    AppendedFront(a, n);
    if |a| > 1 {
      AppendedIsSetList(a[1..], n + 1);
    } else {
      assert a[1..] == [];
    }
  }

  const Head := "UPDATE users SET "

  /** The statement shape the database accepts: it has to start with "UPDATE users SET ". */
  predicate WellFormed(query: string)
  {
    |query| >= |Head| && query[..|Head|] == Head
  }

  lemma PrefixKept(a: string, b: string)
    ensures (a + b)[..|a|] == a
  {
  }

  lemma Assoc(a: string, b: string, c: string)
    ensures (a + b) + c == a + (b + c)
  {
  }

  lemma {:induction false} AppendedStep(a: seq<(string, string)>, c: (string, string), n: nat)
    ensures Appended(a + [c], n) == Appended(a, n) + (Assign(c.0, n + |a|) + ", ")
  {
    assert (a + [c])[..|a|] == a;
  }

  /** The values bound to the SET list's placeholders, in order. */
  function Bound(a: seq<(string, string)>): (v: seq<Value>)
    ensures |v| == |a|
  {
    seq(|a|, i requires 0 <= i < |a| => Text(a[i].1))
  }

  /** What the builder holds after the columns `done`: the accumulated text,
      one bound value per column, and the next placeholder number. */
  ghost predicate Built(query: string, values: seq<Value>, paramCount: int, done: seq<(string, string)>)
  {
    && query == Head + Appended(done, 1)
    && paramCount == |done| + 1
    && values == Bound(done)
  }

  lemma BuiltStep(query: string, values: seq<Value>, paramCount: int, done: seq<(string, string)>, c: (string, string))
    requires Built(query, values, paramCount, done)
    ensures Built(query + (Assign(c.0, paramCount) + ", "), values + [Text(c.1)], paramCount + 1, done + [c])
  {
    AppendedStep(done, c, 1);
    assert Bound(done + [c]) == Bound(done) + [Text(c.1)];
    Assoc(Head, Appended(done, 1), Assign(c.0, paramCount) + ", ");
  }

  /** slice(0, -2) on the accumulated text: the SET list when some column was
      appended, and "UPDATE users SE" when none was. */
  lemma Trimmed(done: seq<(string, string)>)
    ensures var q := Head + Appended(done, 1);
      && |q| >= 2
      && (|done| > 0 ==> q[..|q| - 2] == Head + SetList(done, 1))
      && (|done| == 0 ==> q[..|q| - 2] == "UPDATE users SE")
  {
    var q := Head + Appended(done, 1);
    if |done| > 0 {
      AppendedIsSetList(done, 1);
      assert q == (Head + SetList(done, 1)) + ", ";
      PrefixKept(Head + SetList(done, 1), ", ");
    } else {
      assert q == Head;
    }
  }

  /** The builder's last two steps, slice(0, -2) and the WHERE clause, and the
      id pushed as the last value. */
  lemma Finished(query: string, values: seq<Value>, paramCount: int, done: seq<(string, string)>, id: int)
    requires Built(query, values, paramCount, done)
    ensures |query| >= 2 && paramCount >= 1
    ensures var q := query[..|query| - 2] + WhereClause(paramCount);
      && (|done| > 0 ==> q == Head + SetList(done, 1) + WhereClause(|done| + 1))
      && (|done| == 0 ==> q == "UPDATE users SE" + WhereClause(1))
  {
    Trimmed(done);
  }

  /** The statement's tail: the WHERE clause on the id, bound to placeholder n. */
  function WhereClause(n: nat): string
  {
    " WHERE id = $" + Decimal(n) + " RETURNING *"
  }

  /** The statement text for the columns `a`: with k columns, the SET list
      binds them to $1..$k and the WHERE clause binds the id to $(k+1). With
      no column, slice(0, -2) eats the "T " of "SET ". */
  function UpdateText(a: seq<(string, string)>): string
  {
    if |a| > 0 then Head + SetList(a, 1) + WhereClause(|a| + 1)
    else "UPDATE users SE" + WhereClause(1)
  }

  /** updateUser's statement builder: with k fields given, the SET list binds
      them to $1..$k in the order username, password, email and the id to
      $(k+1); the values are the k field values then the id. With no field
      given, slice(0, -2) eats the "T " of "SET " and the text is malformed. */
  method BuildUpdate(id: int, username: Option<string>, password: Option<string>, email: Option<string>,
                     hash: string -> string) returns (query: string, values: seq<Value>)
    ensures var a := Assignments(username, password, email, hash);
      values == Bound(a) + [Int(id)] && query == UpdateText(a)
  {
    var paramCount;
    ghost var done: seq<(string, string)> := [];
    query, values, paramCount := PushIf(Head, [], 1, done, Truthy(username), "username",
                                        if Truthy(username) then username.value else "");
    done := done + (if Truthy(username) then [("username", username.value)] else []);
    var hashedPassword := if Truthy(password) then hash(password.value) else "";
    query, values, paramCount := PushIf(query, values, paramCount, done, Truthy(password), "password", hashedPassword);
    done := done + (if Truthy(password) then [("password", hash(password.value))] else []);
    query, values, paramCount := PushIf(query, values, paramCount, done, Truthy(email), "email",
                                        if Truthy(email) then email.value else "");
    done := done + (if Truthy(email) then [("email", email.value)] else []);
    assert done == Assignments(username, password, email, hash);
    query, values := Close(query, values, paramCount, done, id);
  }

  /** One `if (field)` of the builder: when the field is given, "column = $n, "
      is appended, its value pushed and the placeholder number advanced;
      otherwise nothing changes. */
  method PushIf(query: string, values: seq<Value>, paramCount: int, ghost done: seq<(string, string)>,
                given: bool, column: string, value: string)
    returns (q: string, v: seq<Value>, p: int)
    requires Built(query, values, paramCount, done)
    ensures Built(q, v, p, done + (if given then [(column, value)] else []))
  {
    if given {
      BuiltStep(query, values, paramCount, done, (column, value));
      q := query + (Assign(column, paramCount) + ", ");
      v := values + [Text(value)];
      p := paramCount + 1;
    } else {
      assert done + [] == done;
      q, v, p := query, values, paramCount;
    }
  }

  /** The builder's last two steps: slice(0, -2) on the text, then the WHERE
      clause on the id with the next placeholder number, and the id pushed as
      the last value. */
  method Close(query: string, values: seq<Value>, paramCount: int, ghost done: seq<(string, string)>, id: int)
    returns (q: string, v: seq<Value>)
    requires Built(query, values, paramCount, done)
    ensures v == Bound(done) + [Int(id)]
    ensures q == UpdateText(done)
  {
    Finished(query, values, paramCount, done, id);
    q := query[..|query| - 2] + WhereClause(paramCount);
    v := values + [Int(id)];
  }

  lemma EmptyUpdateMalformed()
    ensures !WellFormed("UPDATE users SE" + WhereClause(1))
  {
    var bad := "UPDATE users SE" + WhereClause(1);
    assert WhereClause(1)[0] == ' ';
    assert bad[15] == ' ';
    assert bad[..|Head|][15] != Head[15];
  }

  /** The statement has the shape the database accepts exactly when at least
      one column is set: with none, the text reads "UPDATE users SE WHERE id
      = $1 RETURNING *". */
  lemma UpdateTextWellFormed(a: seq<(string, string)>)
    ensures WellFormed(UpdateText(a)) <==> |a| > 0
  {
    if |a| > 0 {
      var rest := SetList(a, 1) + WhereClause(|a| + 1);
      assert UpdateText(a) == Head + rest;
      PrefixKept(Head, rest);
    } else {
      EmptyUpdateMalformed();
    }
  }
}
