/**
 * A run of the reminder job that meets a driver exception, stated outright.
 * The one try/catch around the whole run means the exception ends it: the
 * kinds before the faulting one are swept in full, the faulting kind up to
 * the faulting row, and nothing after it is sent or cleared. An exception
 * the run never reaches (an index past the due rows, or a write fault on a
 * row that gets no mail and so no write) changes nothing.
 */
module FaultRuns {
  import opened Wrappers
  import opened Tables
  import opened Email
  import opened Scheduler
  import opened ReminderRuns
  import opened Cascade

  // ----- the loop over one kind's due rows -----

  /** The loop over the first n due rows stops in the state in which the loop
      over all of them reaches row n. */
  lemma {:induction false} RowsSplit(r: Run, k: Kind, due: seq<Row>, a: nat, n: nat, tr: Mail -> bool, fault: Option<Fault>)
    requires a <= n <= |due|
    decreases n - a
    ensures Rows(r, k, due, a, tr, fault) == Rows(Rows(r, k, due[..n], a, tr, fault), k, due, n, tr, fault)
  {
    if r.failed || a == n {
      SplitStop(r, k, due, a, n, tr, fault);
    } else {
      SplitStep(r, k, due, a, n, tr, fault);
      RowsSplit(Step(r, k, due[a], a, tr, fault), k, due, a + 1, n, tr, fault);
    }
  }

  /** The base cases of RowsSplit: a failed run, or no row left before n. */
  lemma SplitStop(r: Run, k: Kind, due: seq<Row>, a: nat, n: nat, tr: Mail -> bool, fault: Option<Fault>)
    requires a <= n <= |due| && (r.failed || a == n)
    ensures Rows(r, k, due, a, tr, fault) == Rows(Rows(r, k, due[..n], a, tr, fault), k, due, n, tr, fault)
  {
    RowsStop(r, k, due[..n], a, tr, fault);
    if r.failed {
      RowsStop(r, k, due, a, tr, fault);
      RowsStop(r, k, due, n, tr, fault);
    }
  }

  /** Row a is the same row in both loops, so both take the same step. */
  lemma SplitStep(r: Run, k: Kind, due: seq<Row>, a: nat, n: nat, tr: Mail -> bool, fault: Option<Fault>)
    requires a < n <= |due| && !r.failed
    ensures var s := Step(r, k, due[a], a, tr, fault);
      && Rows(r, k, due[..n], a, tr, fault) == Rows(s, k, due[..n], a + 1, tr, fault)
      && Rows(r, k, due, a, tr, fault) == Rows(s, k, due, a + 1, tr, fault)
  {
    assert due[..n][a] == due[a];
    RowsUnfold(r, k, due[..n], a, tr, fault);
    RowsUnfold(r, k, due, a, tr, fault);
  }

  /** A loop over rows the exception is not aimed at runs as if there were
      no exception. */
  lemma {:induction false} RowsQuiet(r: Run, k: Kind, due: seq<Row>, a: nat, tr: Mail -> bool, fault: Option<Fault>)
    requires forall j :: a <= j < |due| ==> !Throws(fault, k, j, Lookup) && !Throws(fault, k, j, Write)
    decreases |due| - a
    ensures Rows(r, k, due, a, tr, fault) == Rows(r, k, due, a, tr, None)
  {
    if !r.failed && a < |due| {
      var s := Step(r, k, due[a], a, tr, fault);
      assert s == Step(r, k, due[a], a, tr, None);
      RowsUnfold(r, k, due, a, tr, fault);
      RowsUnfold(r, k, due, a, tr, None);
      RowsQuiet(s, k, due, a + 1, tr, fault);
    }
  }

  /** Rows 0..i-1 of the faulting kind's loop, which the exception at row i
      does not touch, are handled as in a run without exception. */
  lemma RowsBeforeFault(r: Run, due: seq<Row>, tr: Mail -> bool, f: Fault, t0: Tables, ids: set<int>)
    requires f.index <= |due|
    requires !r.failed
    requires UniqueIds(Table(t0, f.kind))
    requires forall j :: 0 <= j < |due| ==> due[j] in Table(t0, f.kind)
    requires SameLinks(r.t, t0)
    requires Table(r.t, f.kind) == Cleared(Table(t0, f.kind), ids)
    ensures var k, i := f.kind, f.index;
      var m := Run(WithTable(r.t, k, Cleared(Table(t0, k), ids + NotifiedFrom(t0, k, due[..i], 0))),
                   r.log + NoticesFrom(t0, k, due[..i], 0, tr), false);
      && Rows(r, k, due, 0, tr, Some(f)) == Rows(m, k, due, i, tr, Some(f))
      && Rows(r, k, due, 0, tr, None) == Rows(m, k, due, i, tr, None)
      && SameLinks(m.t, t0)
  {
    var k, i := f.kind, f.index;
    var pre := due[..i];
    RowsSplit(r, k, due, 0, i, tr, Some(f));
    RowsSplit(r, k, due, 0, i, tr, None);
    RowsQuiet(r, k, pre, 0, tr, Some(f));
    RowsClean(r, k, pre, 0, tr, t0, ids);
    ClearedLinks(Table(t0, k), ids + NotifiedFrom(t0, k, pre, 0));
  }

  /** A lookup fault at row i fails the run with row i untouched. */
  lemma RowsAtLookup(m: Run, k: Kind, due: seq<Row>, tr: Mail -> bool, f: Fault)
    requires f == Fault(k, f.index, Lookup) && f.index < |due|
    requires !m.failed
    ensures Rows(m, k, due, f.index, tr, Some(f)) == m.(failed := true)
  {
    RowsUnfold(m, k, due, f.index, tr, Some(f));
    RowsStop(m.(failed := true), k, due, f.index + 1, tr, Some(f));
  }

  /** A write fault at row i, whose chain reaches a user, fails the run after
      row i's mail, before its reminder is written. */
  lemma RowsAtWrite(m: Run, k: Kind, due: seq<Row>, tr: Mail -> bool, f: Fault, t0: Tables)
    requires f == Fault(k, f.index, Write) && f.index < |due|
    requires !m.failed && SameLinks(m.t, t0) && Recipient(t0, k, due[f.index]).Some?
    ensures Rows(m, k, due, f.index, tr, Some(f)) == Run(m.t, m.log + Notice(t0, k, due[f.index], tr), true)
  {
    var i := f.index;
    RecipientSameLinks(m.t, t0, k, due[i]);
    RowsUnfold(m, k, due, i, tr, Some(f));
    var s := Step(m, k, due[i], i, tr, Some(f));
    assert s == Run(m.t, m.log + Notice(t0, k, due[i], tr), true);
    RowsStop(s, k, due, i + 1, tr, Some(f));
  }

  /** A write fault at row i, whose chain reaches no user, is never reached:
      the row gets no mail and so no write. */
  lemma RowsAtMissed(m: Run, k: Kind, due: seq<Row>, tr: Mail -> bool, f: Fault, t0: Tables)
    requires f == Fault(k, f.index, Write) && f.index < |due|
    requires !m.failed && SameLinks(m.t, t0) && Recipient(t0, k, due[f.index]).None?
    ensures Rows(m, k, due, f.index, tr, Some(f)) == Rows(m, k, due, f.index, tr, None)
  {
    var i := f.index;
    RecipientSameLinks(m.t, t0, k, due[i]);
    RowsUnfold(m, k, due, i, tr, Some(f));
    RowsUnfold(m, k, due, i, tr, None);
    assert Step(m, k, due[i], i, tr, Some(f)) == m;
    RowsQuiet(m, k, due, i + 1, tr, Some(f));
  }

  /** The faulting kind's loop, with the exception at due row i: rows 0..i-1
      are handled as in a run without exception; a lookup fault then ends the
      run with row i untouched; a write fault on a row with a recipient ends
      it after row i's mail, with row i's reminder still set; a write fault
      on a row without recipient is never reached. */
  lemma RowsFaultAt(r: Run, due: seq<Row>, tr: Mail -> bool, f: Fault, t0: Tables, ids: set<int>)
    requires f.phase != DueQuery && f.index < |due|
    requires !r.failed
    requires UniqueIds(Table(t0, f.kind))
    requires forall j :: 0 <= j < |due| ==> due[j] in Table(t0, f.kind)
    requires SameLinks(r.t, t0)
    requires Table(r.t, f.kind) == Cleared(Table(t0, f.kind), ids)
    ensures var k, i := f.kind, f.index;
      Rows(r, k, due, 0, tr, Some(f)) ==
        if f.phase == Lookup || Recipient(t0, k, due[i]).Some? then
          Run(WithTable(r.t, k, Cleared(Table(t0, k), ids + NotifiedFrom(t0, k, due[..i], 0))),
              r.log + NoticesFrom(t0, k, due[..i], 0, tr) + (if f.phase == Write then Notice(t0, k, due[i], tr) else []),
              true)
        else Rows(r, k, due, 0, tr, None)
  {
    var k, i := f.kind, f.index;
    RowsBeforeFault(r, due, tr, f, t0, ids);
    var m := Run(WithTable(r.t, k, Cleared(Table(t0, k), ids + NotifiedFrom(t0, k, due[..i], 0))),
                 r.log + NoticesFrom(t0, k, due[..i], 0, tr), false);
    if f.phase == Lookup {
      RowsAtLookup(m, k, due, tr, f);
      assert m.log + [] == m.log;
    } else if Recipient(t0, k, due[i]).Some? {
      RowsAtWrite(m, k, due, tr, f, t0);
    } else {
      RowsAtMissed(m, k, due, tr, f, t0);
    }
  }

  // ----- one kind's sweep -----

  /** A sweep of a kind the exception is not aimed at runs as if there were
      no exception. */
  lemma SweepOther(r: Run, k: Kind, now: int, tr: Mail -> bool, f: Fault)
    requires f.kind != k
    ensures Sweep(r, k, now, tr, Some(f)) == Sweep(r, k, now, tr, None)
  {
    if !r.failed {
      RowsQuiet(r, k, Due(Table(r.t, k), now), 0, tr, Some(f));
    }
  }

  /** The sweep of the faulting kind, from a store whose table of that kind
      is still as in t0. */
  lemma SweepFaultAt(r: Run, now: int, tr: Mail -> bool, f: Fault, t0: Tables)
    requires !r.failed
    requires UniqueIds(Table(t0, f.kind))
    requires SameLinks(r.t, t0) && Table(r.t, f.kind) == Table(t0, f.kind)
    ensures var k, i, due := f.kind, f.index, Due(Table(t0, f.kind), now);
      Sweep(r, k, now, tr, Some(f)) ==
        if f.phase == DueQuery then r.(failed := true)
        else if i < |due| && (f.phase == Lookup || Recipient(t0, k, due[i]).Some?) then
          Run(WithTable(r.t, k, Cleared(Table(t0, k), NotifiedFrom(t0, k, due[..i], 0))),
              r.log + NoticesFrom(t0, k, due[..i], 0, tr) + (if f.phase == Write then Notice(t0, k, due[i], tr) else []),
              true)
        else Sweep(r, k, now, tr, None)
  {
    var k, i, due := f.kind, f.index, Due(Table(t0, f.kind), now);
    if f.phase != DueQuery {
      if i < |due| {
        ClearedNone(Table(t0, k));
        RowsFaultAt(r, due, tr, f, t0, {});
        assert {} + NotifiedFrom(t0, k, due[..i], 0) == NotifiedFrom(t0, k, due[..i], 0);
      } else {
        RowsQuiet(r, k, due, 0, tr, Some(f));
      }
    }
  }

  // ----- the whole run -----

  /** The sweeps of the kinds before k. */
  function Prefix(t: Tables, now: int, tr: Mail -> bool, fault: Option<Fault>, k: Kind): Run
  {
    var r0 := Run(t, [], false);
    if k == House then r0
    else
      var r1 := Sweep(r0, House, now, tr, fault);
      if k == Room then r1
      else
        var r2 := Sweep(r1, Room, now, tr, fault);
        if k == Appliance then r2 else Sweep(r2, Appliance, now, tr, fault)
  }

  /** The sweeps of the kinds after k. */
  function Suffix(r: Run, now: int, tr: Mail -> bool, fault: Option<Fault>, k: Kind): Run
  {
    if k == Part then r
    else
      var r3 := if k == House then Sweep(Sweep(r, Room, now, tr, fault), Appliance, now, tr, fault)
                else if k == Room then Sweep(r, Appliance, now, tr, fault)
                else r;
      Sweep(r3, Part, now, tr, fault)
  }

  /** A run is the kinds before k, k's own sweep, then the kinds after it. */
  lemma TickSplit(t: Tables, now: int, tr: Mail -> bool, fault: Option<Fault>, k: Kind)
    ensures TickSpec(t, now, tr, fault) == Suffix(Sweep(Prefix(t, now, tr, fault, k), k, now, tr, fault), now, tr, fault, k)
  {
  }

  /** Once failed, the later kinds are skipped. */
  lemma SuffixFailed(r: Run, now: int, tr: Mail -> bool, fault: Option<Fault>, k: Kind)
    requires r.failed
    ensures Suffix(r, now, tr, fault, k) == r
  {
  }

  /** The later kinds do not see an exception aimed at k. */
  lemma SuffixOther(r: Run, now: int, tr: Mail -> bool, f: Fault)
    ensures Suffix(r, now, tr, Some(f), f.kind) == Suffix(r, now, tr, None, f.kind)
  {
    var k := f.kind;
    if k == House {
      SweepOther(r, Room, now, tr, f);
      SweepOther(Sweep(r, Room, now, tr, None), Appliance, now, tr, f);
      SweepOther(Sweep(Sweep(r, Room, now, tr, None), Appliance, now, tr, None), Part, now, tr, f);
    } else if k == Room {
      SweepOther(r, Appliance, now, tr, f);
      SweepOther(Sweep(r, Appliance, now, tr, None), Part, now, tr, f);
    } else if k == Appliance {
      SweepOther(r, Part, now, tr, f);
    }
  }

  /** The earlier kinds do not see an exception aimed at k. */
  lemma PrefixOther(t: Tables, now: int, tr: Mail -> bool, f: Fault)
    ensures Prefix(t, now, tr, Some(f), f.kind) == Prefix(t, now, tr, None, f.kind)
  {
    var k := f.kind;
    var r0 := Run(t, [], false);
    if k != House {
      SweepOther(r0, House, now, tr, f);
      var r1 := Sweep(r0, House, now, tr, None);
      if k != Room {
        SweepOther(r1, Room, now, tr, f);
        var r2 := Sweep(r1, Room, now, tr, None);
        if k != Appliance {
          SweepOther(r2, Appliance, now, tr, f);
        }
      }
    }
  }

  /** The store once the kinds before k have been swept with no exception. */
  function SweptBefore(t: Tables, now: int, k: Kind): Tables
  {
    var s := Swept(t, now);
    Tables(t.users,
           if Depth(k) > 0 then s.houses else t.houses,
           if Depth(k) > 1 then s.rooms else t.rooms,
           if Depth(k) > 2 then s.appliances else t.appliances,
           t.parts)
  }

  /** The mails of the kinds before k, in sweep order. */
  function NoticesBefore(t: Tables, now: int, k: Kind, tr: Mail -> bool): seq<Sent>
  {
    (if Depth(k) > 0 then KindNotices(t, House, now, tr) else [])
    + (if Depth(k) > 1 then KindNotices(t, Room, now, tr) else [])
    + (if Depth(k) > 2 then KindNotices(t, Appliance, now, tr) else [])
  }

  /** The kinds before k, with no exception, in closed form. */
  lemma PrefixClean(t: Tables, now: int, tr: Mail -> bool, k: Kind)
    requires forall k' :: UniqueIds(Table(t, k'))
    ensures Prefix(t, now, tr, None, k) == Run(SweptBefore(t, now, k), NoticesBefore(t, now, k, tr), false)
  {
    var r0 := Run(t, [], false);
    if k != House {
      SweepClean(r0, House, now, tr, t);
      var r1 := Sweep(r0, House, now, tr, None);
      ClearedLinks(t.houses, Notified(t, House, now));
      assert SameLinks(r1.t, t);
      var kh := KindNotices(t, House, now, tr);
      assert r1.log == kh by { assert [] + kh == kh; }
      if k == Room {
        assert NoticesBefore(t, now, k, tr) == kh + [] + [];
      } else {
        SweepClean(r1, Room, now, tr, t);
        var r2 := Sweep(r1, Room, now, tr, None);
        ClearedLinks(t.rooms, Notified(t, Room, now));
        assert SameLinks(r2.t, t);
        var kr := KindNotices(t, Room, now, tr);
        if k == Appliance {
          assert NoticesBefore(t, now, k, tr) == kh + kr + [];
        } else {
          SweepClean(r2, Appliance, now, tr, t);
        }
      }
    }
  }

  /** A run that meets the exception f is the clean sweeps of the kinds before
      f's kind, then that kind's sweep with the exception; if that sweep does
      not fail, the run is the one without exception. */
  lemma TickFaultSplit(t: Tables, now: int, tr: Mail -> bool, f: Fault)
    ensures var s := Sweep(Prefix(t, now, tr, None, f.kind), f.kind, now, tr, Some(f));
      TickSpec(t, now, tr, Some(f)) == if s.failed then s else TickSpec(t, now, tr, None)
  {
    var k := f.kind;
    TickSplit(t, now, tr, Some(f), k);
    TickSplit(t, now, tr, None, k);
    PrefixOther(t, now, tr, f);
    var p := Prefix(t, now, tr, None, k);
    SweepFault(p, p, k, now, tr, f);
    var s := Sweep(p, k, now, tr, Some(f));
    if s.failed {
      SuffixFailed(s, now, tr, Some(f), k);
    } else {
      SuffixOther(s, now, tr, f);
    }
  }

  /** Sweeping the kinds before k only clears reminders. */
  lemma SweptBeforeLinks(t: Tables, now: int, k: Kind)
    ensures SameLinks(SweptBefore(t, now, k), t)
    ensures Table(SweptBefore(t, now, k), k) == Table(t, k)
  {
    SweptLinks(t, now);
    var b := SweptBefore(t, now, k);
    forall k' ensures Links(Table(b, k')) == Links(Table(t, k')) {
      assert Table(b, k') == Table(Swept(t, now), k') || Table(b, k') == Table(t, k');
    }
  }

  /** The run up to and including the sweep of f's kind, over the clean
      sweeps before it. */
  lemma TickFaultSweep(t: Tables, now: int, tr: Mail -> bool, f: Fault)
    requires forall k' :: UniqueIds(Table(t, k'))
    ensures var p := Prefix(t, now, tr, None, f.kind);
      && p == Run(SweptBefore(t, now, f.kind), NoticesBefore(t, now, f.kind, tr), false)
      && SameLinks(p.t, t) && Table(p.t, f.kind) == Table(t, f.kind)
      && var s := Sweep(p, f.kind, now, tr, Some(f));
         TickSpec(t, now, tr, Some(f)) == if s.failed then s else TickSpec(t, now, tr, None)
  {
    TickFaultSplit(t, now, tr, f);
    PrefixClean(t, now, tr, f.kind);
    SweptBeforeLinks(t, now, f.kind);
  }

  /** An exception in the due query of kind k ends the run after the kinds
      before k, with nothing of k sent or cleared. */
  lemma TickFaultQuery(t: Tables, now: int, tr: Mail -> bool, f: Fault)
    requires forall k' :: UniqueIds(Table(t, k'))
    requires f.phase == DueQuery
    ensures TickSpec(t, now, tr, Some(f)) ==
      Run(SweptBefore(t, now, f.kind), NoticesBefore(t, now, f.kind, tr), true)
  {
    TickFaultSweep(t, now, tr, f);
    SweepFaultAt(Prefix(t, now, tr, None, f.kind), now, tr, f, t);
  }

  /** An exception at due row i of kind k that is reached ends the run with
      the kinds before k swept, the first i due rows of k handled as usual,
      and for a write fault row i's mail sent. */
  lemma TickFaultReached(t: Tables, now: int, tr: Mail -> bool, f: Fault)
    requires forall k' :: UniqueIds(Table(t, k'))
    requires f.phase != DueQuery
    requires f.index < |Due(Table(t, f.kind), now)|
    requires f.phase == Lookup || Recipient(t, f.kind, Due(Table(t, f.kind), now)[f.index]).Some?
    ensures var k, i, due := f.kind, f.index, Due(Table(t, f.kind), now);
      TickSpec(t, now, tr, Some(f)) ==
        Run(WithTable(SweptBefore(t, now, k), k, Cleared(Table(t, k), NotifiedFrom(t, k, due[..i], 0))),
            NoticesBefore(t, now, k, tr) + NoticesFrom(t, k, due[..i], 0, tr)
              + (if f.phase == Write then Notice(t, k, due[i], tr) else []),
            true)
  {
    TickFaultSweep(t, now, tr, f);
    SweepFaultAt(Prefix(t, now, tr, None, f.kind), now, tr, f, t);
  }

  /** An exception the run never reaches leaves the run without exception. */
  lemma TickFaultMissed(t: Tables, now: int, tr: Mail -> bool, f: Fault)
    requires forall k' :: UniqueIds(Table(t, k'))
    requires f.phase != DueQuery
    requires !(f.index < |Due(Table(t, f.kind), now)| &&
               (f.phase == Lookup || Recipient(t, f.kind, Due(Table(t, f.kind), now)[f.index]).Some?))
    ensures TickSpec(t, now, tr, Some(f)) == TickSpec(t, now, tr, None)
  {
    TickFaultSweep(t, now, tr, f);
    var p := Prefix(t, now, tr, None, f.kind);
    SweepFaultAt(p, now, tr, f, t);
    assert !Sweep(p, f.kind, now, tr, Some(f)).failed by {
      SweepClean(p, f.kind, now, tr, t);
    }
  }

  /** The closed form of a run that meets the exception f, under the primary
      keys: the three lemmas above, in one statement. */
  lemma TickFaultAt(t: Tables, now: int, tr: Mail -> bool, f: Fault)
    requires forall k' :: UniqueIds(Table(t, k'))
    ensures var k, i, due := f.kind, f.index, Due(Table(t, f.kind), now);
      var b := Run(SweptBefore(t, now, k), NoticesBefore(t, now, k, tr), false);
      TickSpec(t, now, tr, Some(f)) ==
        if f.phase == DueQuery then b.(failed := true)
        else if i < |due| && (f.phase == Lookup || Recipient(t, k, due[i]).Some?) then
          Run(WithTable(b.t, k, Cleared(Table(t, k), NotifiedFrom(t, k, due[..i], 0))),
              b.log + NoticesFrom(t, k, due[..i], 0, tr) + (if f.phase == Write then Notice(t, k, due[i], tr) else []),
              true)
        else TickSpec(t, now, tr, None)
  {
    var due := Due(Table(t, f.kind), now);
    if f.phase == DueQuery {
      TickFaultQuery(t, now, tr, f);
    } else if f.index < |due| && (f.phase == Lookup || Recipient(t, f.kind, due[f.index]).Some?) {
      TickFaultReached(t, now, tr, f);
    } else {
      TickFaultMissed(t, now, tr, f);
    }
  }

  /** A row whose id was not cleared is still in the table as it was. */
  lemma ClearedKeeps(rows: seq<Row>, ids: set<int>, x: Row)
    requires x in rows && x.id !in ids
    ensures x in Cleared(rows, ids)
  {
    var q :| 0 <= q < |rows| && rows[q] == x;
    assert Cleared(rows, ids)[q] == x;
  }

  /** Under a primary key, a due row at or after i is not among the rows
      notified before i. */
  lemma NotNotifiedBefore(t: Tables, k: Kind, due: seq<Row>, i: nat, j: nat)
    requires UniqueIds(due) && i <= j < |due|
    ensures due[j].id !in NotifiedFrom(t, k, due[..i], 0)
  {
  }

  /** What the closed form of a reached exception leaves behind: every table
      after the faulting kind is untouched, the faulting row and every due
      row after it are still in the table as read (reminder set), and a
      write fault leaves the faulting row's mail last in the log. */
  lemma ReachedStops(t: Tables, now: int, tr: Mail -> bool, f: Fault)
    requires UniqueIds(Table(t, f.kind))
    requires f.index < |Due(Table(t, f.kind), now)|
    ensures var k, i, due := f.kind, f.index, Due(Table(t, f.kind), now);
      var rt := WithTable(SweptBefore(t, now, k), k, Cleared(Table(t, k), NotifiedFrom(t, k, due[..i], 0)));
      && (forall k' :: Depth(k) < Depth(k') ==> Table(rt, k') == Table(t, k'))
      && (forall j :: i <= j < |due| ==> due[j] in Table(rt, k))
  {
    var k, i, due := f.kind, f.index, Due(Table(t, f.kind), now);
    var done := NotifiedFrom(t, k, due[..i], 0);
    SelectUnique(Table(t, k), DueBy(now));
    forall j | i <= j < |due| ensures due[j] in Cleared(Table(t, k), done) {
      NotNotifiedBefore(t, k, due, i, j);
      ClearedKeeps(Table(t, k), done, due[j]);
    }
  }

  /** A write fault's mail is the last entry of the log. */
  lemma NoticeLast(log: seq<Sent>, t: Tables, k: Kind, row: Row, tr: Mail -> bool)
    requires Recipient(t, k, row).Some?
    ensures var l := log + Notice(t, k, row, tr);
      |l| > 0 &&
      l[|l| - 1] == SendReminderEmail(Recipient(t, k, row).value.email, Subject(k), Item(k, row.name), tr)
  {
  }

  /** What an exception that is reached leaves behind: the run has failed,
      every table after the faulting kind is untouched, the faulting row and
      every due row after it are still in the table as read (reminder set),
      and a write fault leaves the faulting row's mail last in the log. */
  lemma TickFaultStops(t: Tables, now: int, tr: Mail -> bool, f: Fault)
    requires forall k' :: UniqueIds(Table(t, k'))
    requires f.phase != DueQuery
    requires f.index < |Due(Table(t, f.kind), now)|
    requires f.phase == Lookup || Recipient(t, f.kind, Due(Table(t, f.kind), now)[f.index]).Some?
    ensures var k, i, due := f.kind, f.index, Due(Table(t, f.kind), now);
      var r := TickSpec(t, now, tr, Some(f));
      && r.failed
      && (forall k' :: Depth(k) < Depth(k') ==> Table(r.t, k') == Table(t, k'))
      && (forall j :: i <= j < |due| ==> due[j] in Table(r.t, k))
      && (f.phase == Write ==>
            |r.log| > 0 &&
            r.log[|r.log| - 1] == SendReminderEmail(Recipient(t, k, due[i]).value.email, Subject(k), Item(k, due[i].name), tr))
  {
    var k, i, due := f.kind, f.index, Due(Table(t, f.kind), now);
    TickFaultReached(t, now, tr, f);
    ReachedStops(t, now, tr, f);
    if f.phase == Write {
      NoticeLast(NoticesBefore(t, now, k, tr) + NoticesFrom(t, k, due[..i], 0, tr), t, k, due[i], tr);
    }
  }
}
