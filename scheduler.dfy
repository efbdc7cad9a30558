/**
 * One run of the reminder cron job. It reads `now` once. It then sweeps the
 * due houses, rooms, appliances and parts, in that order, each kind in the
 * order its due query returned the rows. For a due row it walks the chain up
 * to the owning user; when every lookup finds its row, it sends one reminder
 * and writes the row back with every column as read except the reminder,
 * which becomes NULL. A single try/catch wraps the whole run: the first
 * exception ends it, and the error is only logged.
 */
module Scheduler {
  import opened Wrappers
  import opened Tables
  import opened Ownership
  import opened Email
  import opened Store

  /** Where an exception of the database driver can arise in a sweep: the
      due query of a kind, the chain lookups for its i-th due row, or the
      write that clears that row's reminder. */
  datatype Phase = DueQuery | Lookup | Write

  /** The one exception a run meets, if any. */
  datatype Fault = Fault(kind: Kind, index: nat, phase: Phase)

  predicate Throws(fault: Option<Fault>, k: Kind, i: nat, phase: Phase)
  {
    fault.Some? && fault.value.kind == k && fault.value.phase == phase &&
    (phase == DueQuery || fault.value.index == i)
  }

  function Subject(k: Kind): string
  {
    match k
    case House => "House Reminder"
    case Room => "Room Reminder"
    case Appliance => "Appliance Reminder"
    case Part => "Part Reminder"
  }

  function Item(k: Kind, name: string): string
  {
    match k
    case House => "Reminder for house: " + name
    case Room => "Reminder for room: " + name
    case Appliance => "Reminder for appliance: " + name
    case Part => "Reminder for part: " + name
  }

  /** The user a due row's chain ends at: findById on each parent table in
      turn, then User.findById on the house's user_id; None as soon as one
      lookup comes back null. */
  function Recipient(t: Tables, k: Kind, row: Row): (r: Option<User>)
    ensures r.Some? ==> r.value in t.users
  {
    if k == House then FindUser(t.users, row.parent)
    else match OwnerId(t, Up(k), row.parent)
      case Failure(_) => None
      case Success(u) => FindUser(t.users, u)
  }

  /** The write-back of a due row: every column as read, the reminder NULL. */
  function Clear(row: Row): Change
  {
    SetRow(row.name, None, row.details)
  }

  /** The state of a run: the database, the sends so far, and whether an
      exception has ended the run. */
  datatype Run = Run(t: Tables, log: seq<Sent>, failed: bool)

  /** The loop body for the i-th due row of table k. */
  function Step(r: Run, k: Kind, row: Row, i: nat, transport: Mail -> bool, fault: Option<Fault>): Run
  {
    if Throws(fault, k, i, Lookup) then r.(failed := true)
    else match Recipient(r.t, k, row)
      case None => r
      case Some(user) =>
        var sent := SendReminderEmail(user.email, Subject(k), Item(k, row.name), transport);
        if Throws(fault, k, i, Write) || row.id !in Ids(Table(r.t, k)) then Run(r.t, r.log + [sent], true)
        else Run(WithTable(r.t, k, UpdateRows(Table(r.t, k), row.id, Clear(row))), r.log + [sent], false)
  }

  /** The loop over the due rows from the i-th on. */
  function Rows(r: Run, k: Kind, due: seq<Row>, i: nat, transport: Mail -> bool, fault: Option<Fault>): Run
    decreases |due| - i
  {
    if r.failed || i >= |due| then r
    else Rows(Step(r, k, due[i], i, transport, fault), k, due, i + 1, transport, fault)
  }

  /** One kind's sweep: its due query, then the loop. */
  function Sweep(r: Run, k: Kind, now: int, transport: Mail -> bool, fault: Option<Fault>): Run
  {
    if r.failed then r
    else if Throws(fault, k, 0, DueQuery) then r.(failed := true)
    else Rows(r, k, Due(Table(r.t, k), now), 0, transport, fault)
  }

  /** The whole run: houses, rooms, appliances, parts, all with the same `now`. */
  function TickSpec(t: Tables, now: int, transport: Mail -> bool, fault: Option<Fault>): Run
  {
    var r0 := Run(t, [], false);
    var r1 := Sweep(r0, House, now, transport, fault);
    var r2 := Sweep(r1, Room, now, transport, fault);
    var r3 := Sweep(r2, Appliance, now, transport, fault);
    Sweep(r3, Part, now, transport, fault)
  }

  /** The loop body for one due row, over the database object. */
  method Visit(db: Database, k: Kind, row: Row, i: nat, transport: Mail -> bool, fault: Option<Fault>, log0: seq<Sent>)
    returns (log: seq<Sent>, failed: bool)
    requires db.Valid()
    modifies db
    ensures db.Valid()
    ensures Run(db.t, log, failed) == Step(Run(old(db.t), log0, false), k, row, i, transport, fault)
  {
    log := log0;
    if Throws(fault, k, i, Lookup) {
      return log, true;
    }
    var user := Recipient(db.t, k, row);
    if user.None? {
      return log, false;
    }
    var sent := SendReminderEmail(user.value.email, Subject(k), Item(k, row.name), transport);
    log := log + [sent];
    if Throws(fault, k, i, Write) {
      return log, true;
    }
    var written := db.Update(k, row.id, Clear(row));
    failed := written.Failure?;
  }

  lemma RowsUnfold(r: Run, k: Kind, due: seq<Row>, i: nat, transport: Mail -> bool, fault: Option<Fault>)
    requires !r.failed && i < |due|
    ensures Rows(r, k, due, i, transport, fault) == Rows(Step(r, k, due[i], i, transport, fault), k, due, i + 1, transport, fault)
  {
  }

  lemma RowsStop(r: Run, k: Kind, due: seq<Row>, i: nat, transport: Mail -> bool, fault: Option<Fault>)
    requires r.failed || i >= |due|
    ensures Rows(r, k, due, i, transport, fault) == r
  {
  }

  /** One turn of the loop: a failed step ends it with the loop's result;
      otherwise the loop goes on from the next row to the same result. */
  lemma RowsAdvance(cur: Run, next: Run, k: Kind, due: seq<Row>, i: nat, transport: Mail -> bool, fault: Option<Fault>, target: Run)
    requires !cur.failed && i < |due|
    requires Rows(cur, k, due, i, transport, fault) == target
    requires next == Step(cur, k, due[i], i, transport, fault)
    ensures next.failed ==> next == target
    ensures !next.failed ==> Rows(next, k, due, i + 1, transport, fault) == target
  {
    RowsUnfold(cur, k, due, i, transport, fault);
    if next.failed {
      RowsStop(next, k, due, i + 1, transport, fault);
    }
  }

  /** The loop over the due rows of table k, over the database object. */
  method VisitAll(db: Database, k: Kind, due: seq<Row>, transport: Mail -> bool, fault: Option<Fault>, log0: seq<Sent>)
    returns (log: seq<Sent>, failed: bool)
    requires db.Valid()
    modifies db
    ensures db.Valid()
    ensures Run(db.t, log, failed) == Rows(Run(old(db.t), log0, false), k, due, 0, transport, fault)
  {
    log := log0;
    ghost var target := Rows(Run(db.t, log0, false), k, due, 0, transport, fault);
    var i := 0;
    while i < |due|
      invariant 0 <= i <= |due|
      invariant db.Valid()
      invariant Rows(Run(db.t, log, false), k, due, i, transport, fault) == target
      decreases |due| - i
    {
      ghost var before := Run(db.t, log, false);
      log, failed := Visit(db, k, due[i], i, transport, fault, log);
      RowsAdvance(before, Run(db.t, log, failed), k, due, i, transport, fault, target);
      if failed {
        return;
      }
      i := i + 1;
    }
    RowsStop(Run(db.t, log, false), k, due, i, transport, fault);
    failed := false;
  }

  /** One kind's sweep: the due query, then the loop. */
  method SweepKind(db: Database, k: Kind, now: int, transport: Mail -> bool, fault: Option<Fault>, log0: seq<Sent>)
    returns (log: seq<Sent>, failed: bool)
    requires db.Valid()
    modifies db
    ensures db.Valid()
    ensures Run(db.t, log, failed) == Sweep(Run(old(db.t), log0, false), k, now, transport, fault)
  {
    if Throws(fault, k, 0, DueQuery) {
      return log0, true;
    }
    var due := Due(Table(db.t, k), now);
    log, failed := VisitAll(db, k, due, transport, fault, log0);
  }

  /** The cron callback: one run at time `now`. */
  method Tick(db: Database, now: int, transport: Mail -> bool, fault: Option<Fault>)
    returns (log: seq<Sent>, failed: bool)
    requires db.Valid()
    modifies db
    ensures db.Valid()
    ensures Run(db.t, log, failed) == TickSpec(old(db.t), now, transport, fault)
  {
    log, failed := SweepKind(db, House, now, transport, fault, []);
    if !failed {
      log, failed := SweepKind(db, Room, now, transport, fault, log);
    }
    if !failed {
      log, failed := SweepKind(db, Appliance, now, transport, fault, log);
    }
    if !failed {
      log, failed := SweepKind(db, Part, now, transport, fault, log);
    }
  }
}
