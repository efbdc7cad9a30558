/**
 * What one run of the reminder job does to the whole store, stated outright:
 * the closed form of a run that meets no exception, the independence of the
 * database from whether the mails were delivered, the log of an interrupted
 * run, and the quiet second run.
 */
module ReminderRuns {
  import opened Wrappers
  import opened Tables
  import opened Ownership
  import opened Email
  import opened Scheduler

  /** The rows with their reminder set to NULL exactly for the ids `ids`. */
  function Cleared(rows: seq<Row>, ids: set<int>): (r: seq<Row>)
    ensures |r| == |rows|
  {
    seq(|rows|, j requires 0 <= j < |rows| => if rows[j].id in ids then rows[j].(reminder := None) else rows[j])
  }

  /** The ids of the rows of table k that are due at `now` and whose chain
      reaches a user. */
  function Notified(t: Tables, k: Kind, now: int): set<int>
  {
    set x | x in Table(t, k) && x.reminder.Some? && x.reminder.value <= now && Recipient(t, k, x).Some? :: x.id
  }

  /** The ids among the due rows from the i-th on whose chain reaches a user. */
  function NotifiedFrom(t: Tables, k: Kind, due: seq<Row>, i: nat): set<int>
  {
    set j | i <= j < |due| && Recipient(t, k, due[j]).Some? :: due[j].id
  }

  /** The one mail a due row gets, if its chain reaches a user. */
  function Notice(t: Tables, k: Kind, row: Row, transport: Mail -> bool): seq<Sent>
  {
    match Recipient(t, k, row)
    case None => []
    case Some(u) => [SendReminderEmail(u.email, Subject(k), Item(k, row.name), transport)]
  }

  /** The mails for the due rows from the i-th on, in the order of the due query. */
  function NoticesFrom(t: Tables, k: Kind, due: seq<Row>, i: nat, transport: Mail -> bool): seq<Sent>
    decreases |due| - i
  {
    if i >= |due| then [] else Notice(t, k, due[i], transport) + NoticesFrom(t, k, due, i + 1, transport)
  }

  /** The store after a run with no exception: in every entity table, each row
      due at `now` whose chain reaches a user has its reminder cleared. */
  function Swept(t: Tables, now: int): Tables
  {
    Tables(t.users,
           Cleared(t.houses, Notified(t, House, now)),
           Cleared(t.rooms, Notified(t, Room, now)),
           Cleared(t.appliances, Notified(t, Appliance, now)),
           Cleared(t.parts, Notified(t, Part, now)))
  }

  function KindNotices(t: Tables, k: Kind, now: int, transport: Mail -> bool): seq<Sent>
  {
    NoticesFrom(t, k, Due(Table(t, k), now), 0, transport)
  }

  /** The mails of a run with no exception: houses, rooms, appliances, parts. */
  function Expected(t: Tables, now: int, transport: Mail -> bool): seq<Sent>
  {
    KindNotices(t, House, now, transport) + KindNotices(t, Room, now, transport)
    + KindNotices(t, Appliance, now, transport) + KindNotices(t, Part, now, transport)
  }

  function Mails(log: seq<Sent>): (m: seq<Mail>)
    ensures |m| == |log|
  {
    seq(|log|, j requires 0 <= j < |log| => log[j].mail)
  }

  // ----- the chain lookups see only ids and foreign keys -----

  /** Clearing reminders keeps every id and foreign key, so the recipient of a
      row is the same before and after. */
  lemma RecipientSameLinks(t1: Tables, t2: Tables, k: Kind, row: Row)
    requires SameLinks(t1, t2)
    ensures Recipient(t1, k, row) == Recipient(t2, k, row)
  {
    if k != House {
      OwnerIdSameLinks(t1, t2, Up(k), row.parent);
    }
  }

  lemma ClearedLinks(rows: seq<Row>, ids: set<int>)
    ensures Links(Cleared(rows, ids)) == Links(rows)
  {
  }

  lemma ClearedNone(rows: seq<Row>)
    ensures Cleared(rows, {}) == rows
  {
  }

  /** Writing back a due row with a NULL reminder clears that row and no other. */
  lemma ClearedStep(rows: seq<Row>, ids: set<int>, row: Row)
    requires UniqueIds(rows) && row in rows
    ensures UpdateRows(Cleared(rows, ids), row.id, Clear(row)) == Cleared(rows, ids + {row.id})
  {
    var a := UpdateRows(Cleared(rows, ids), row.id, Clear(row));
    var b := Cleared(rows, ids + {row.id});
    forall j | 0 <= j < |rows| ensures a[j] == b[j] {
      if rows[j].id == row.id {
        var i :| 0 <= i < |rows| && rows[i] == row;
        assert rows[j] == row;
      }
    }
  }

  // ----- the run that meets no exception -----

  /** One due row with no exception: the write-back clears exactly that row,
      and the chain it needs is the one in t0. */
  lemma StepClean(r: Run, k: Kind, row: Row, i: nat, transport: Mail -> bool, t0: Tables, ids: set<int>)
    requires !r.failed
    requires UniqueIds(Table(t0, k)) && row in Table(t0, k)
    requires SameLinks(r.t, t0)
    requires Table(r.t, k) == Cleared(Table(t0, k), ids)
    ensures var ids' := if Recipient(t0, k, row).Some? then ids + {row.id} else ids;
      && Step(r, k, row, i, transport, None)
         == Run(WithTable(r.t, k, Cleared(Table(t0, k), ids')), r.log + Notice(t0, k, row, transport), false)
      && SameLinks(WithTable(r.t, k, Cleared(Table(t0, k), ids')), t0)
  {
    RecipientSameLinks(r.t, t0, k, row);
    match Recipient(t0, k, row)
    case None =>
      assert WithTable(r.t, k, Table(r.t, k)) == r.t;
      assert r.log + [] == r.log;
    case Some(u) =>
      LinksIds(Table(r.t, k), Table(t0, k));
      assert row.id in Ids(Table(r.t, k));
      ClearedStep(Table(t0, k), ids, row);
      ClearedLinks(Table(t0, k), ids + {row.id});
  }

  lemma NotifiedFromStep(t: Tables, k: Kind, due: seq<Row>, i: nat)
    requires i < |due|
    ensures NotifiedFrom(t, k, due, i)
      == (if Recipient(t, k, due[i]).Some? then {due[i].id} else {}) + NotifiedFrom(t, k, due, i + 1)
  {
  }

  lemma NoticesFromStep(t: Tables, k: Kind, due: seq<Row>, i: nat, transport: Mail -> bool)
    requires i < |due|
    ensures NoticesFrom(t, k, due, i, transport) == Notice(t, k, due[i], transport) + NoticesFrom(t, k, due, i + 1, transport)
  {
  }

  lemma WithTableTwice(t: Tables, k: Kind, a: seq<Row>, b: seq<Row>)
    ensures WithTable(WithTable(t, k, a), k, b) == WithTable(t, k, b)
  {
  }

  /** The reminders cleared and the mails sent for the due rows from the i-th
      on: the i-th row's share, then the rest. */
  lemma RowsCleanStep(r: Run, r1: Run, k: Kind, due: seq<Row>, i: nat, transport: Mail -> bool, t0: Tables, ids: set<int>, ids': set<int>)
    requires i < |due|
    requires ids' == if Recipient(t0, k, due[i]).Some? then ids + {due[i].id} else ids
    requires r1.t == WithTable(r.t, k, Cleared(Table(t0, k), ids'))
    requires r1.log == r.log + Notice(t0, k, due[i], transport)
    ensures Run(WithTable(r1.t, k, Cleared(Table(t0, k), ids' + NotifiedFrom(t0, k, due, i + 1))),
                r1.log + NoticesFrom(t0, k, due, i + 1, transport), false)
         == Run(WithTable(r.t, k, Cleared(Table(t0, k), ids + NotifiedFrom(t0, k, due, i))),
                r.log + NoticesFrom(t0, k, due, i, transport), false)
  {
    var rest := NotifiedFrom(t0, k, due, i + 1);
    NotifiedFromStep(t0, k, due, i);
    if Recipient(t0, k, due[i]).Some? {
      assert ids' + rest == ids + ({due[i].id} + rest);
    } else {
      assert ids' + rest == ids + ({} + rest);
    }
    WithTableTwice(r.t, k, Cleared(Table(t0, k), ids'), Cleared(Table(t0, k), ids' + rest));
    var later := NoticesFrom(t0, k, due, i + 1, transport);
    NoticesFromStep(t0, k, due, i, transport);
    SeqAssoc(r.log, Notice(t0, k, due[i], transport), later);
  }

  lemma SeqAssoc(a: seq<Sent>, b: seq<Sent>, c: seq<Sent>)
    ensures (a + b) + c == a + (b + c)
  {
  }

  lemma {:induction false} RowsClean(r: Run, k: Kind, due: seq<Row>, i: nat, transport: Mail -> bool, t0: Tables, ids: set<int>)
    requires !r.failed
    requires UniqueIds(Table(t0, k))
    requires forall j :: i <= j < |due| ==> due[j] in Table(t0, k)
    requires SameLinks(r.t, t0)
    requires Table(r.t, k) == Cleared(Table(t0, k), ids)
    decreases |due| - i
    ensures Rows(r, k, due, i, transport, None)
      == Run(WithTable(r.t, k, Cleared(Table(t0, k), ids + NotifiedFrom(t0, k, due, i))),
             r.log + NoticesFrom(t0, k, due, i, transport), false)
  {
    if i >= |due| {
      RowsStop(r, k, due, i, transport, None);
      assert NotifiedFrom(t0, k, due, i) == {};
      assert ids + {} == ids;
      assert WithTable(r.t, k, Table(r.t, k)) == r.t;
      assert r.log + [] == r.log;
    } else {
      var ids' := if Recipient(t0, k, due[i]).Some? then ids + {due[i].id} else ids;
      StepClean(r, k, due[i], i, transport, t0, ids);
      var r1 := Step(r, k, due[i], i, transport, None);
      RowsUnfold(r, k, due, i, transport, None);
      RowsClean(r1, k, due, i + 1, transport, t0, ids');
      RowsCleanStep(r, r1, k, due, i, transport, t0, ids, ids');
    }
  }

  lemma NotifiedFromDue(t: Tables, k: Kind, now: int)
    ensures NotifiedFrom(t, k, Due(Table(t, k), now), 0) == Notified(t, k, now)
  {
    var due := Due(Table(t, k), now);
    forall id | id in Notified(t, k, now) ensures id in NotifiedFrom(t, k, due, 0) {
      var x :| x in Table(t, k) && x.reminder.Some? && x.reminder.value <= now && Recipient(t, k, x).Some? && x.id == id;
      var j :| 0 <= j < |due| && due[j] == x;
    }
    forall id | id in NotifiedFrom(t, k, due, 0) ensures id in Notified(t, k, now) {
      var j :| 0 <= j < |due| && Recipient(t, k, due[j]).Some? && due[j].id == id;
      assert due[j] in due;
    }
  }

  /** One kind's sweep with no exception, from a store whose table k is as in t0. */
  lemma SweepClean(r: Run, k: Kind, now: int, transport: Mail -> bool, t0: Tables)
    requires !r.failed
    requires UniqueIds(Table(t0, k))
    requires SameLinks(r.t, t0) && Table(r.t, k) == Table(t0, k)
    ensures Sweep(r, k, now, transport, None)
      == Run(WithTable(r.t, k, Cleared(Table(t0, k), Notified(t0, k, now))), r.log + KindNotices(t0, k, now, transport), false)
  {
    ClearedNone(Table(t0, k));
    RowsClean(r, k, Due(Table(t0, k), now), 0, transport, t0, {});
    NotifiedFromDue(t0, k, now);
    assert {} + Notified(t0, k, now) == Notified(t0, k, now);
  }

  /** A run that meets no exception never fails: it clears the reminder of
      every due row whose chain reaches a user and of no other row, and sends
      one mail per such row, all houses first, then rooms, appliances, parts,
      each kind in the order of its due query. */
  lemma TickClean(t: Tables, now: int, transport: Mail -> bool)
    requires forall k :: UniqueIds(Table(t, k))
    ensures TickSpec(t, now, transport, None) == Run(Swept(t, now), Expected(t, now, transport), false)
  {
    var r0 := Run(t, [], false);
    SweepClean(r0, House, now, transport, t);
    var r1 := Sweep(r0, House, now, transport, None);
    ClearedLinks(t.houses, Notified(t, House, now));
    assert SameLinks(r1.t, t);
    SweepClean(r1, Room, now, transport, t);
    var r2 := Sweep(r1, Room, now, transport, None);
    ClearedLinks(t.rooms, Notified(t, Room, now));
    assert SameLinks(r2.t, t);
    SweepClean(r2, Appliance, now, transport, t);
    var r3 := Sweep(r2, Appliance, now, transport, None);
    ClearedLinks(t.appliances, Notified(t, Appliance, now));
    assert SameLinks(r3.t, t);
    SweepClean(r3, Part, now, transport, t);
    var r4 := Sweep(r3, Part, now, transport, None);
    assert TickSpec(t, now, transport, None) == r4;
    assert r4.t == Swept(t, now);
    assert r4.log == [] + KindNotices(t, House, now, transport) + KindNotices(t, Room, now, transport)
      + KindNotices(t, Appliance, now, transport) + KindNotices(t, Part, now, transport);
    var kh := KindNotices(t, House, now, transport);
    assert [] + kh == kh;
    assert r4.log == Expected(t, now, transport);
    assert !r4.failed;
  }

  // ----- the rows the run touches -----

  lemma SweptTable(t: Tables, now: int, k: Kind)
    ensures Table(Swept(t, now), k) == Cleared(Table(t, k), Notified(t, k, now))
  {
  }

  /** After a run with no exception, a row keeps every column except the
      reminder, and loses its reminder exactly when it was due at `now` and
      its chain reached a user. */
  lemma SweptRow(t: Tables, now: int, k: Kind, j: int)
    requires UniqueIds(Table(t, k)) && 0 <= j < |Table(t, k)|
    ensures var x := Table(t, k)[j];
      Table(Swept(t, now), k)[j]
      == if x.reminder.Some? && x.reminder.value <= now && Recipient(t, k, x).Some? then x.(reminder := None) else x
  {
    SweptTable(t, now, k);
    var rows := Table(t, k);
    var x := rows[j];
    if x.id in Notified(t, k, now) {
      var y :| y in rows && y.reminder.Some? && y.reminder.value <= now && Recipient(t, k, y).Some? && y.id == x.id;
      var i :| 0 <= i < |rows| && rows[i] == y;
      assert i == j;
    }
  }

  lemma SweptLinks(t: Tables, now: int)
    ensures SameLinks(Swept(t, now), t)
  {
    forall k ensures Links(Table(Swept(t, now), k)) == Links(Table(t, k)) {
      SweptTable(t, now, k);
      ClearedLinks(Table(t, k), Notified(t, k, now));
    }
  }

  /** After a run with no exception, no row is due at `now` with a chain that
      reaches a user. */
  lemma SweptQuiet(t: Tables, now: int, k: Kind, x: Row)
    requires x in Table(Swept(t, now), k) && x.reminder.Some? && x.reminder.value <= now
    ensures Recipient(Swept(t, now), k, x).None?
  {
    SweptTable(t, now, k);
    SweptLinks(t, now);
    RecipientSameLinks(Swept(t, now), t, k, x);
    var rows := Table(t, k);
    var j :| 0 <= j < |rows| && Cleared(rows, Notified(t, k, now))[j] == x;
    assert rows[j].id !in Notified(t, k, now);
    assert x == rows[j];
  }

  lemma {:induction false} NoNotices(t: Tables, k: Kind, due: seq<Row>, i: nat, transport: Mail -> bool)
    requires forall j :: i <= j < |due| ==> Recipient(t, k, due[j]).None?
    decreases |due| - i
    ensures NoticesFrom(t, k, due, i, transport) == []
  {
    if i < |due| {
      NoNotices(t, k, due, i + 1, transport);
    }
  }

  lemma SweptKindQuiet(t: Tables, now: int, k: Kind, transport: Mail -> bool)
    ensures Notified(Swept(t, now), k, now) == {}
    ensures KindNotices(Swept(t, now), k, now, transport) == []
  {
    var t' := Swept(t, now);
    forall x | x in Table(t', k) && x.reminder.Some? && x.reminder.value <= now
      ensures Recipient(t', k, x).None?
    {
      SweptQuiet(t, now, k, x);
    }
    var due := Due(Table(t', k), now);
    forall j | 0 <= j < |due| ensures Recipient(t', k, due[j]).None? {
      assert due[j] in due;
    }
    NoNotices(t', k, due, 0, transport);
  }

  lemma SweptFixed(t: Tables, now: int)
    ensures Swept(Swept(t, now), now) == Swept(t, now)
  {
    var t' := Swept(t, now);
    forall k ensures Table(Swept(t', now), k) == Table(t', k) {
      SweptKindQuiet(t, now, k, x => true);
      SweptTable(t', now, k);
      ClearedNone(Table(t', k));
    }
    assert Swept(t', now).houses == t'.houses;
    assert Swept(t', now).rooms == t'.rooms;
    assert Swept(t', now).appliances == t'.appliances;
    assert Swept(t', now).parts == t'.parts;
  }

  lemma SweptSilent(t: Tables, now: int, transport: Mail -> bool)
    ensures Expected(Swept(t, now), now, transport) == []
  {
    SweptKindQuiet(t, now, House, transport);
    SweptKindQuiet(t, now, Room, transport);
    SweptKindQuiet(t, now, Appliance, transport);
    SweptKindQuiet(t, now, Part, transport);
  }

  /** A second run at the same `now`, with no exception, sends nothing and
      changes nothing: every reminder the first run could act on is cleared. */
  lemma TickAgainQuiet(t: Tables, now: int, transport: Mail -> bool)
    requires forall k :: UniqueIds(Table(t, k))
    ensures TickSpec(Swept(t, now), now, transport, None) == Run(Swept(t, now), [], false)
  {
    var t' := Swept(t, now);
    SweptLinks(t, now);
    SameLinksKeeps(t', t);
    TickClean(t', now, transport);
    SweptFixed(t, now);
    SweptSilent(t, now, transport);
  }

  // ----- delivery does not matter -----

  /** Two runs that agree on everything but whether each mail was delivered. */
  predicate Alike(a: Run, b: Run)
  {
    a.t == b.t && a.failed == b.failed && Mails(a.log) == Mails(b.log)
  }

  lemma MailsSnoc(log: seq<Sent>, s: Sent)
    ensures Mails(log + [s]) == Mails(log) + [s.mail]
  {
  }

  lemma StepTransport(r1: Run, r2: Run, k: Kind, row: Row, i: nat, tr1: Mail -> bool, tr2: Mail -> bool, fault: Option<Fault>)
    requires Alike(r1, r2)
    ensures Alike(Step(r1, k, row, i, tr1, fault), Step(r2, k, row, i, tr2, fault))
  {
    if !Throws(fault, k, i, Lookup) && Recipient(r1.t, k, row).Some? {
      var u := Recipient(r1.t, k, row).value;
      MailsSnoc(r1.log, SendReminderEmail(u.email, Subject(k), Item(k, row.name), tr1));
      MailsSnoc(r2.log, SendReminderEmail(u.email, Subject(k), Item(k, row.name), tr2));
    }
  }

  lemma {:induction false} RowsTransport(r1: Run, r2: Run, k: Kind, due: seq<Row>, i: nat, tr1: Mail -> bool, tr2: Mail -> bool, fault: Option<Fault>)
    requires Alike(r1, r2)
    decreases |due| - i
    ensures Alike(Rows(r1, k, due, i, tr1, fault), Rows(r2, k, due, i, tr2, fault))
  {
    if !r1.failed && i < |due| {
      StepTransport(r1, r2, k, due[i], i, tr1, tr2, fault);
      RowsTransport(Step(r1, k, due[i], i, tr1, fault), Step(r2, k, due[i], i, tr2, fault), k, due, i + 1, tr1, tr2, fault);
    }
  }

  lemma SweepTransport(r1: Run, r2: Run, k: Kind, now: int, tr1: Mail -> bool, tr2: Mail -> bool, fault: Option<Fault>)
    requires Alike(r1, r2)
    ensures Alike(Sweep(r1, k, now, tr1, fault), Sweep(r2, k, now, tr2, fault))
  {
    if !r1.failed && !Throws(fault, k, 0, DueQuery) {
      RowsTransport(r1, r2, k, Due(Table(r1.t, k), now), 0, tr1, tr2, fault);
    }
  }

  /** sendReminderEmail's outcome is only logged: whether the mail server
      accepts the messages changes neither the store, nor whether the run
      ends early, nor which messages are handed to it. */
  lemma TickTransport(t: Tables, now: int, tr1: Mail -> bool, tr2: Mail -> bool, fault: Option<Fault>)
    ensures Alike(TickSpec(t, now, tr1, fault), TickSpec(t, now, tr2, fault))
  {
    var a0 := Run(t, [], false);
    SweepTransport(a0, a0, House, now, tr1, tr2, fault);
    var a1 := Sweep(a0, House, now, tr1, fault);
    var b1 := Sweep(a0, House, now, tr2, fault);
    SweepTransport(a1, b1, Room, now, tr1, tr2, fault);
    var a2 := Sweep(a1, Room, now, tr1, fault);
    var b2 := Sweep(b1, Room, now, tr2, fault);
    SweepTransport(a2, b2, Appliance, now, tr1, tr2, fault);
    var a3 := Sweep(a2, Appliance, now, tr1, fault);
    var b3 := Sweep(b2, Appliance, now, tr2, fault);
    SweepTransport(a3, b3, Part, now, tr1, tr2, fault);
  }

  // ----- an exception ends the run -----

  lemma StepGrows(r: Run, k: Kind, row: Row, i: nat, transport: Mail -> bool, fault: Option<Fault>)
    ensures r.log <= Step(r, k, row, i, transport, fault).log
  {
  }

  lemma {:induction false} RowsGrows(r: Run, k: Kind, due: seq<Row>, i: nat, transport: Mail -> bool, fault: Option<Fault>)
    decreases |due| - i
    ensures r.log <= Rows(r, k, due, i, transport, fault).log
  {
    if !r.failed && i < |due| {
      StepGrows(r, k, due[i], i, transport, fault);
      RowsGrows(Step(r, k, due[i], i, transport, fault), k, due, i + 1, transport, fault);
    }
  }

  lemma SweepGrows(r: Run, k: Kind, now: int, transport: Mail -> bool, fault: Option<Fault>)
    ensures r.log <= Sweep(r, k, now, transport, fault).log
  {
    if !r.failed && !Throws(fault, k, 0, DueQuery) {
      RowsGrows(r, k, Due(Table(r.t, k), now), 0, transport, fault);
    }
  }

  /** Run a, which met an exception, is behind run b, which met none: its
      log is a prefix of b's, and it is b itself while it has not failed. */
  predicate Behind(a: Run, b: Run)
  {
    a.log <= b.log && (!a.failed ==> a == b)
  }

  /** An exception in a kind's loop leaves a run behind the one without it.
      This is the weak form; FaultRuns.RowsFaultAt says exactly where the
      loop stops and what it leaves. */
  lemma {:induction false} RowsFault(r: Run, k: Kind, due: seq<Row>, i: nat, transport: Mail -> bool, f: Fault)
    decreases |due| - i
    ensures Behind(Rows(r, k, due, i, transport, Some(f)), Rows(r, k, due, i, transport, None))
  {
    if !r.failed && i < |due| {
      var a := Step(r, k, due[i], i, transport, Some(f));
      var b := Step(r, k, due[i], i, transport, None);
      RowsGrows(b, k, due, i + 1, transport, None);
      if a == b {
        RowsFault(a, k, due, i + 1, transport, f);
      } else {
        assert a.failed && a.log <= b.log;
        RowsStop(a, k, due, i + 1, transport, Some(f));
      }
    }
  }

  /** The same for one kind's sweep; FaultRuns.SweepFaultAt has the exact
      result. */
  lemma SweepFault(a: Run, b: Run, k: Kind, now: int, transport: Mail -> bool, f: Fault)
    requires Behind(a, b)
    ensures Behind(Sweep(a, k, now, transport, Some(f)), Sweep(b, k, now, transport, None))
  {
    SweepGrows(b, k, now, transport, None);
    if !a.failed && !Throws(Some(f), k, 0, DueQuery) {
      RowsFault(a, k, Due(Table(a.t, k), now), 0, transport, f);
    }
  }

  /** The driver exception that ends a run leaves the mails sent before it: the
      log of the interrupted run is a prefix of the log of the run that meets
      no exception, and a run the exception never reaches is that run. This
      holds without primary keys; under them FaultRuns.TickFaultAt gives the
      interrupted run exactly, of which this is a corollary. */
  lemma TickFault(t: Tables, now: int, transport: Mail -> bool, f: Fault)
    ensures Behind(TickSpec(t, now, transport, Some(f)), TickSpec(t, now, transport, None))
  {
    var r0 := Run(t, [], false);
    SweepFault(r0, r0, House, now, transport, f);
    var a1 := Sweep(r0, House, now, transport, Some(f));
    var b1 := Sweep(r0, House, now, transport, None);
    SweepFault(a1, b1, Room, now, transport, f);
    var a2 := Sweep(a1, Room, now, transport, Some(f));
    var b2 := Sweep(b1, Room, now, transport, None);
    SweepFault(a2, b2, Appliance, now, transport, f);
    var a3 := Sweep(a2, Appliance, now, transport, Some(f));
    var b3 := Sweep(b2, Appliance, now, transport, None);
    SweepFault(a3, b3, Part, now, transport, f);
  }

  /** With primary keys in place, an interrupted run has sent a prefix of the
      mails the closed form names (a corollary of FaultRuns.TickFaultAt, whose
      log is NoticesBefore, then a prefix of the faulting kind's mails). */
  lemma TickFaultSent(t: Tables, now: int, transport: Mail -> bool, f: Fault)
    requires forall k :: UniqueIds(Table(t, k))
    ensures TickSpec(t, now, transport, Some(f)).log <= Expected(t, now, transport)
  {
    TickFault(t, now, transport, f);
    TickClean(t, now, transport);
  }
}
