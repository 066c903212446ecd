// Ledger.dfy: the membership_events ledger explains every end date. Folding a
// membership's events from its granted end gives the stored end after any run,
// although the batch's reactivation writes no event.
module Ledger {
  import opened Prelude
  import opened Schema
  import opened Engine
  import opened Calendar

  // What the events alone say: the end date and the last window not yet closed by an event.
  datatype Balance = Balance(end: Date, open: Option<Window>)

  function Entry(b: Balance, a: Action): Balance {
    match a
    case PauseSet(w) => Balance(b.end + w.Length(), Some(w))
    case DaysAdded(days) => Balance(b.end + days, if b.open.Some? then Some(b.open.value.Shift(days)) else None)
    case PauseDropped => if b.open.Some? then Balance(b.end - b.open.value.Length(), None) else b
    case PauseEnded(actual) =>
      if b.open.Some?
      then Balance(b.end - b.open.value.Length() - (b.open.value.until - actual), None) else b
    case MoneyBack => b
  }

  function Replay(granted: Date, log: seq<Event>, id: int): Balance {
    if log == [] then Balance(granted, None)
    else
      var before := Replay(granted, log[..|log| - 1], id);
      var last := log[|log| - 1];
      if last.membership == id then Entry(before, last.action) else before
  }

  // A window the row still holds is the one the ledger has open. The converse
  // fails after a reactivation, which closes the window without an event.
  predicate Matches(m: Membership, b: Balance) {
    m.end == b.end && (m.pause.Some? ==> b.open == m.pause)
  }

  predicate EventsKnown(db: Db) {
    forall k :: 0 <= k < |db.events| ==> 0 <= db.events[k].membership < |db.rows|
  }

  predicate LedgerOk(db: Db, granted: seq<Date>) {
    && |granted| == |db.rows|
    && EventsKnown(db)
    && forall i :: 0 <= i < |db.rows| ==> Matches(db.rows[i], Replay(granted[i], db.events, i))
  }

  // The end dates the accepted grants of a run asked for, in order of the new rows.
  function GrantedAfter(db: Db, req: Request, granted: seq<Date>): seq<Date> {
    if |Step(db, req).db.rows| > |db.rows| && req.GrantReq? then granted + [req.start + req.term] else granted
  }

  function GrantedOver(db: Db, reqs: seq<Request>, granted: seq<Date>): seq<Date>
    decreases |reqs|
  {
    if reqs == [] then granted
    else GrantedOver(Step(db, reqs[0]).db, reqs[1..], GrantedAfter(db, reqs[0], granted))
  }

  lemma ReplayAppend(granted: Date, log: seq<Event>, e: Event, id: int)
    ensures Replay(granted, log + [e], id) ==
      (if e.membership == id then Entry(Replay(granted, log, id), e.action) else Replay(granted, log, id))
  {
    assert (log + [e])[..|log|] == log;
  }

  lemma {:induction false} ReplayUntouched(granted: Date, log: seq<Event>, id: int)
    requires forall k :: 0 <= k < |log| ==> log[k].membership != id
    ensures Replay(granted, log, id) == Balance(granted, None)
  {
    if log != [] {
      ReplayUntouched(granted, log[..|log| - 1], id);
    }
  }

  predicate Increasing(ids: seq<int>) { forall k, l :: 0 <= k < l < |ids| ==> ids[k] < ids[l] }

  lemma LastExtension(log: seq<Event>, ids: seq<int>, days: int)
    requires ids != []
    ensures var n := |ids| - 1;
            log + ExtensionEvents(ids, days) ==
              (log + ExtensionEvents(ids[..n], days)) + [Event(ids[n], DaysAdded(days))]
  {
  }

  lemma LastId(ids: seq<int>, id: int)
    requires ids != [] && Increasing(ids)
    ensures var n := |ids| - 1;
            && Increasing(ids[..n])
            && (id in ids <==> id in ids[..n] || id == ids[n])
            && (id == ids[n] ==> id !in ids[..n])
  {
    assert ids == ids[..|ids| - 1] + [ids[|ids| - 1]];
  }

  // One event per id, and the ids are distinct: each membership sees its own event once.
  lemma {:induction false} ReplayExtension(granted: Date, log: seq<Event>, ids: seq<int>, days: int, id: int)
    requires Increasing(ids)
    ensures Replay(granted, log + ExtensionEvents(ids, days), id) ==
      (if id in ids then Entry(Replay(granted, log, id), DaysAdded(days)) else Replay(granted, log, id))
  {
    if ids == [] {
      assert log + ExtensionEvents(ids, days) == log;
    } else {
      var n := |ids| - 1;
      LastExtension(log, ids, days);
      LastId(ids, id);
      ReplayExtension(granted, log, ids[..n], days, id);
      ReplayAppend(granted, log + ExtensionEvents(ids[..n], days), Event(ids[n], DaysAdded(days)), id);
    }
  }

  // A handler that rewrites row `id` and appends one event about it.
  lemma SingleWriteKeepsLedger(db: Db, granted: seq<Date>, id: int, m: Membership, a: Action)
    requires LedgerOk(db, granted) && 0 <= id < |db.rows|
    requires Matches(m, Entry(Replay(granted[id], db.events, id), a))
    ensures LedgerOk(db.(rows := db.rows[id := m], events := db.events + [Event(id, a)]), granted)
  {
    forall i | 0 <= i < |db.rows|
      ensures Matches(db.rows[id := m][i], Replay(granted[i], db.events + [Event(id, a)], i))
    {
      ReplayAppend(granted[i], db.events, Event(id, a), i);
    }
  }

  lemma GrantKeepsLedger(db: Db, granted: seq<Date>, m: Membership)
    requires LedgerOk(db, granted) && m.pause.None?
    ensures LedgerOk(db.(rows := db.rows + [m]), granted + [m.end])
  {
    ReplayUntouched(m.end, db.events, |db.rows|);
  }

  lemma ExtensionKeepsLedger(db: Db, granted: seq<Date>, f: Filter, days: int)
    requires CalendarOk(db) && LedgerOk(db, granted) && days >= 1
    ensures LedgerOk(BulkExtend(db, f, days).db, granted)
  {
    var ids := Targets(db, f, |db.rows|);
    var after := BulkExtend(db, f, days).db;
    if after != db {
      forall i | 0 <= i < |db.rows|
        ensures Matches(after.rows[i], Replay(granted[i], after.events, i))
      {
        ReplayExtension(granted[i], db.events, ids, days, i);
        assert RowOk(db.rows[i], db.today);
      }
    }
  }

  lemma BatchKeepsLedger(db: Db, granted: seq<Date>)
    requires LedgerOk(db, granted)
    ensures LedgerOk(RunExpiry(db), granted)
  {
    forall i | 0 <= i < |db.rows|
      ensures Matches(BatchRow(db.rows[i], db.today), Replay(granted[i], db.events, i))
    {
      assert Matches(db.rows[i], Replay(granted[i], db.events, i));
      BatchRowKeepsTerm(db.rows[i], db.today);
    }
  }

  lemma PauseKeepsLedger(db: Db, granted: seq<Date>, id: int, scope: Option<int>, w: Window)
    requires LedgerOk(db, granted)
    ensures LedgerOk(Pause(db, id, scope, w).db, granted)
  {
    if Pause(db, id, scope, w).reply == Done {
      var m := db.rows[id];
      assert Matches(m, Replay(granted[id], db.events, id));
      SingleWriteKeepsLedger(db, granted, id, PausedRow(m, w, db.today), PauseSet(w));
    }
  }

  lemma UnpauseKeepsLedger(db: Db, granted: seq<Date>, id: int, scope: Option<int>)
    requires LedgerOk(db, granted)
    ensures LedgerOk(Unpause(db, id, scope).db, granted)
  {
    if Unpause(db, id, scope).reply == Done {
      var m := db.rows[id];
      assert Matches(m, Replay(granted[id], db.events, id));
      SingleWriteKeepsLedger(db, granted, id, UnpausedRow(m, db.today), PauseEnded(db.today));
    }
  }

  lemma CancelKeepsLedger(db: Db, granted: seq<Date>, id: int, scope: Option<int>)
    requires LedgerOk(db, granted)
    ensures LedgerOk(CancelPause(db, id, scope).db, granted)
  {
    if CancelPause(db, id, scope).reply == Done {
      var m := db.rows[id];
      assert Matches(m, Replay(granted[id], db.events, id));
      SingleWriteKeepsLedger(db, granted, id, CancelledRow(m), PauseDropped);
    }
  }

  lemma RefundKeepsLedger(db: Db, granted: seq<Date>, id: int, scope: Option<int>)
    requires LedgerOk(db, granted)
    ensures LedgerOk(Refund(db, id, scope).db, granted)
  {
    if Refund(db, id, scope).reply == Done {
      var m := db.rows[id];
      assert Matches(m, Replay(granted[id], db.events, id));
      SingleWriteKeepsLedger(db, granted, id, m.(status := Refunded), MoneyBack);
    }
  }

  lemma GrantReqKeepsLedger(db: Db, granted: seq<Date>, req: Request)
    requires LedgerOk(db, granted) && req.GrantReq?
    ensures LedgerOk(Step(db, req).db, GrantedAfter(db, req, granted))
  {
    var m := Membership(req.member, PlanOf(req.offer), req.start, req.start + req.term, Active, None, false);
    GrantKeepsLedger(db, granted, m);
  }

  lemma OtherReqKeepsLedger(db: Db, granted: seq<Date>, req: Request)
    requires LedgerOk(db, granted) && (req.EnterReq? || req.AddMemberReq? || req.DropMemberReq?)
    ensures LedgerOk(Step(db, req).db, GrantedAfter(db, req, granted))
  {
  }

  lemma StepKeepsLedger(db: Db, granted: seq<Date>, req: Request)
    requires CalendarOk(db) && LedgerOk(db, granted)
    ensures LedgerOk(Step(db, req).db, GrantedAfter(db, req, granted))
  {
    match req
    case GrantReq(_, _, _, _, _, _, _) =>
      GrantReqKeepsLedger(db, granted, req);
    case PauseReq(id, scope, w) => PauseKeepsLedger(db, granted, id, scope, w);
    case UnpauseReq(id, scope) => UnpauseKeepsLedger(db, granted, id, scope);
    case CancelPauseReq(id, scope) => CancelKeepsLedger(db, granted, id, scope);
    case RefundReq(id, scope) => RefundKeepsLedger(db, granted, id, scope);
    case BulkExtendReq(f, days) =>
      if days >= 1 {
        ExtensionKeepsLedger(db, granted, f, days);
      }
    case BatchReq => BatchKeepsLedger(db, granted);
    case MidnightReq => BatchKeepsLedger(db.(today := db.today + 1), granted);
    case _ => OtherReqKeepsLedger(db, granted, req);
  }

  // Replaying the ledger gives the stored end date of every membership after every run.
  lemma {:induction false} RunKeepsLedger(db: Db, granted: seq<Date>, reqs: seq<Request>)
    requires CalendarOk(db) && LedgerOk(db, granted)
    ensures LedgerOk(Run(db, reqs), GrantedOver(db, reqs, granted))
    decreases |reqs|
  {
    if reqs != [] {
      StepKeepsCalendar(db, reqs[0]);
      StepKeepsLedger(db, granted, reqs[0]);
      RunKeepsLedger(Step(db, reqs[0]).db, GrantedAfter(db, reqs[0], granted), reqs[1..]);
    }
  }

  // ---- what the handlers undo ------------------------------------------

  // A series of bulk extensions of one row: how many days, on which day.
  datatype Extension = Extension(days: Days, day: Date)

  function ExtendedBy(m: Membership, es: seq<Extension>): Membership
    decreases |es|
  {
    if es == [] then m else ExtendedBy(ExtendedRow(m, es[0].days, es[0].day), es[1..])
  }

  // Every extension was made while the pause, shifted by those before it, was still
  // ahead.
  predicate StillScheduled(w: Window, es: seq<Extension>)
    decreases |es|
  {
    es == [] || (es[0].day < w.from && StillScheduled(w.Shift(es[0].days), es[1..]))
  }

  // Cancelling a scheduled pause leaves exactly the row that the extensions
  // alone would have produced.
  lemma {:induction false} CancelUndoesPause(m: Membership, w: Window, today: Date, es: seq<Extension>)
    requires m.status.Active? && m.pause.None? && !m.pauseUsed
    requires today < w.from && StillScheduled(w, es)
    ensures ExtendedBy(PausedRow(m, w, today), es).pause.Some?
    ensures CancelledRow(ExtendedBy(PausedRow(m, w, today), es)) == ExtendedBy(m, es)
    decreases |es|
  {
    if es != [] {
      var days, day := es[0].days, es[0].day;
      var next := ExtendedRow(m, days, day);
      assert ExtendedRow(PausedRow(m, w, today), days, day) == PausedRow(next, w.Shift(days), today);
      CancelUndoesPause(ExtendedRow(m, days, day), w.Shift(days), today, es[1..]);
    }
  }

  // Days granted while a pause runs do not survive an early unpause.
  lemma {:induction false} UnpauseForgetsExtensions(m: Membership, es: seq<Extension>, actual: Date)
    requires m.status.Paused? && m.pause.Some?
    ensures ExtendedBy(m, es).pause.Some?
    ensures UnpausedRow(ExtendedBy(m, es), actual) == UnpausedRow(m, actual)
    decreases |es|
  {
    if es != [] {
      var next := ExtendedRow(m, es[0].days, es[0].day);
      UnpauseForgetsExtensions(next, es[1..], actual);
    }
  }

  // Whatever was granted meanwhile, the term ends where it ended before the pause,
  // less the pause days that were not used.
  lemma PauseThenUnpause(m: Membership, w: Window, today: Date, es: seq<Extension>, actual: Date)
    requires w.from <= today
    ensures var p := ExtendedBy(PausedRow(m, w, today), es);
      p.pause.Some? && UnpausedRow(p, actual) ==
        m.(end := m.end - (w.until - actual), pause := None, status := Active, pauseUsed := true)
  {
    UnpauseForgetsExtensions(PausedRow(m, w, today), es, actual);
  }
}
