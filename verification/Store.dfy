// Store.dfy: the handlers and repository helpers as methods that change the tables
// in place, each proved against its function in Engine.dfy.
module Store {
  import opened Prelude
  import opened Schema
  import opened Engine
  import opened Calendar
  import opened Extension

  class Gym {
    var today: Date
    var members: map<int, Member>
    var rows: seq<Membership>
    var events: seq<Event>
    var payments: seq<Payment>
    var checkIns: seq<CheckIn>

    function State(): Db
      reads this
    {
      Db(today, members, rows, events, payments, checkIns)
    }

    // What the constraints and the handlers keep true of the tables.
    ghost predicate Valid()
      reads this
    {
      CalendarOk(State())
    }

    constructor ()
      ensures State() == EMPTY && Valid()
    {
      today, members, rows, events, payments, checkIns := 0, map[], [], [], [], [];
    }

    // ---- statements ----------------------------------------------------

    // One UPDATE or INSERT of a membership. A refused statement writes nothing.
    method Put(i: int, m: Membership) returns (refused: Option<Reply>)
      requires 0 <= i <= |rows|
      modifies this`rows
      ensures refused == (if Write(old(rows), i, m).Violated? then Some(Write(old(rows), i, m).reply) else None)
      ensures rows == if refused.None? then Write(old(rows), i, m).rows else old(rows)
    {
      match Write(rows, i, m) {
        case Violated(why) => refused := Some(why);
        case Written(after) => rows, refused := after, None;
      }
    }

    method InsertEvent(e: Event)
      modifies this`events
      ensures events == old(events) + [e]
    {
      events := events + [e];
    }

    method InsertPayment(p: Payment) returns (id: int)
      modifies this`payments
      ensures payments == old(payments) + [p] && id == |old(payments)|
    {
      id := |payments|;
      payments := payments + [p];
    }

    // ---- handlers ------------------------------------------------------

    method GrantMembership(member: int, scope: Option<int>, offer: Offer, start: Date, term: Days,
                           amount: int, tender: PayMethod) returns (reply: Reply)
      requires Valid()
      modifies this
      ensures Outcome(State(), reply) == Grant(old(State()), member, scope, offer, start, term, amount, tender)
      ensures Valid()
    {
      GrantKeepsCalendar(State(), member, scope, offer, start, term, amount, tender);
      if offer.MonthlyOffer? && offer.months < 1 { return InvalidMonths; }
      if amount <= 0 { return InvalidAmount; }
      if start < today { return InvalidStartDate; }
      if !MemberVisible(State(), member, scope) { return NotFound; }
      var id := |rows|;
      var refused := Put(id, Membership(member, PlanOf(offer), start, start + term, Active, None, false));
      if refused.Some? { return refused.value; }
      var _ := InsertPayment(Payment(id, members[member].branch, amount, tender, today));
      return Done;
    }

    method PauseMembership(id: int, scope: Option<int>, w: Window) returns (reply: Reply)
      requires Valid()
      modifies this
      ensures Outcome(State(), reply) == Pause(old(State()), id, scope, w)
      ensures Valid()
    {
      PauseKeepsCalendar(State(), id, scope, w);
      if !Visible(State(), id, scope) { return NotFound; }
      var m := rows[id];
      if m.pauseUsed { return PauseAlreadyUsed; }
      if w.from > w.until { return InvalidPauseRange; }
      if w.from < today { return InvalidPauseRange; }
      if w.from < m.start { return InvalidPauseRange; }
      if w.until > m.end { return InvalidPauseRange; }
      var refused := Put(id, PausedRow(m, w, today));
      if refused.Some? { return refused.value; }
      InsertEvent(Event(id, PauseSet(w)));
      return Done;
    }

    // A valid store never answers PeriodOverlap here: see Calendar.UnpauseAlwaysCommits.
    method UnpauseMembership(id: int, scope: Option<int>) returns (reply: Reply)
      requires Valid()
      modifies this
      ensures Outcome(State(), reply) == Unpause(old(State()), id, scope)
      ensures Valid()
    {
      UnpauseKeepsCalendar(State(), id, scope);
      if !Visible(State(), id, scope) { return NotFound; }
      if !rows[id].status.Paused? { return NotPaused; }
      var refused := Put(id, UnpausedRow(rows[id], today));
      if refused.Some? { return refused.value; }
      InsertEvent(Event(id, PauseEnded(today)));
      return Done;
    }

    method CancelScheduledPause(id: int, scope: Option<int>) returns (reply: Reply)
      requires Valid()
      modifies this
      ensures Outcome(State(), reply) == CancelPause(old(State()), id, scope)
      ensures Valid()
    {
      CancelKeepsCalendar(State(), id, scope);
      if !Visible(State(), id, scope) { return NotFound; }
      if !PauseScheduled(rows[id], today) { return PauseNotScheduled; }
      var refused := Put(id, CancelledRow(rows[id]));
      if refused.Some? { return refused.value; }
      InsertEvent(Event(id, PauseDropped));
      return Done;
    }

    method RefundMembership(id: int, scope: Option<int>) returns (reply: Reply)
      requires Valid()
      modifies this
      ensures Outcome(State(), reply) == Refund(old(State()), id, scope)
      ensures Valid()
    {
      RefundKeepsCalendar(State(), id, scope);
      if !Visible(State(), id, scope) { return NotFound; }
      var m := rows[id];
      if m.status.Expired? { return AlreadyExpired; }
      if m.status.Refunded? { return AlreadyRefunded; }
      var original := OriginalPayment(payments, id, |payments|);
      if original.None? { return NoPaymentToMirror; }
      var mirror := Mirror(payments[original.value], today);
      var refused := Put(id, m.(status := Refunded));
      if refused.Some? { return refused.value; }
      var _ := InsertPayment(mirror);
      InsertEvent(Event(id, MoneyBack));
      return Done;
    }

    method DoCheckIn(member: int, branch: int) returns (reply: Reply)
      requires Valid()
      modifies this
      ensures Outcome(State(), reply) == Enter(old(State()), member, branch)
      ensures Valid()
    {
      EntryKeepsCalendar(State(), member, branch);
      var locked := Covering(State(), member, branch, |rows|);
      if locked.None? {
        return if StartsLater(State(), member, branch) then NotStarted else NoActiveMembership;
      }
      var id := locked.value;
      var first := FirstOfDay(checkIns, member, branch, today);
      var charged := first && rows[id].plan.Pass10?;
      var newlyExpired := false;
      if charged {
        var refused := Put(id, ChargedRow(rows[id]));
        if refused.Some? { return refused.value; }
        newlyExpired := rows[id].status.Expired?;
      }
      checkIns := checkIns + [CheckIn(member, branch, id, today)];
      return Entered(id, charged, newlyExpired);
    }

    // ---- bulk extension ------------------------------------------------

    // The locked targets, in ascending order of id.
    method LockTargets(f: Filter) returns (ids: seq<int>)
      ensures ids == Targets(State(), f, |rows|)
    {
      ids := [];
      for i := 0 to |rows|
        invariant ids == Targets(State(), f, i)
      {
        NextTarget(State(), f, i);
        if IsTarget(State(), f, i) {
          ids := ids + [i];
        }
      }
    }

    // Rows are moved one at a time and the constraint is checked at each; the first
    // conflict rolls the table back.
    method MoveTargets(f: Filter, days: int, ids: seq<int>) returns (conflict: Option<int>)
      requires Valid() && 1 <= days <= 90 && ids == Targets(State(), f, |rows|)
      modifies this`rows
      ensures conflict.None? ==> rows == AllExtended(old(State()), f, days)
      ensures conflict.Some? ==> rows == old(rows)
      ensures BulkExtend(old(State()), f, days) ==
        match conflict
        case Some(id) => Outcome(old(State()), ConflictAt(id))
        case None => Outcome(old(State()).(rows := rows, events := events + ExtensionEvents(ids, days)),
          ExtendedRows(|ids|))
    {
      ghost var db := State();
      var before := rows;
      var k := 0;
      while k < |ids|
        invariant k <= |ids|
        invariant rows == PartlyExtended(before, ids[..k], days, today)
        invariant forall l :: 0 <= l < k ==> !Reaches(before, ids[l], days)
      {
        var id := ids[k];
        ExtendStep(db, f, days, ids, k);
        var refused := Put(id, ExtendedRow(rows[id], days, today));
        if refused.Some? {
          rows := before;
          ConflictReport(db, f, days, ids, k);
          return Some(id);
        }
        k := k + 1;
      }
      ExtensionComplete(db, f, days, ids);
      return None;
    }

    method LogExtension(ids: seq<int>, days: int)
      modifies this`events
      ensures events == old(events) + ExtensionEvents(ids, days)
    {
      var k := 0;
      while k < |ids|
        invariant k <= |ids|
        invariant events == old(events) + ExtensionEvents(ids[..k], days)
      {
        assert ExtensionEvents(ids[..k + 1], days) ==
          ExtensionEvents(ids[..k], days) + [Event(ids[k], DaysAdded(days))];
        InsertEvent(Event(ids[k], DaysAdded(days)));
        k := k + 1;
      }
      assert ids[..k] == ids;
    }

    method ExtendAll(f: Filter, days: int) returns (reply: Reply)
      requires Valid()
      modifies this
      ensures Outcome(State(), reply) == BulkExtend(old(State()), f, days)
      ensures Valid()
    {
      ExtensionKeepsCalendar(State(), f, days);
      if days < 1 || days > 90 { return InvalidExtendDays; }
      var ids := LockTargets(f);
      var conflict := MoveTargets(f, days, ids);
      if conflict.Some? { return ConflictAt(conflict.value); }
      LogExtension(ids, days);
      return ExtendedRows(|ids|);
    }

    // ---- the day -------------------------------------------------------

    method Midnight()
      requires Valid()
      modifies this
      ensures State() == Step(old(State()), MidnightReq).db
      ensures Valid()
    {
      StepKeepsCalendar(State(), MidnightReq);
      today := today + 1;
      ExpireActivePastEnd();
      ReactivatePausedPastEnd();
      ScheduleArrivedPause();
      assert rows == RunExpiry(old(State()).(today := today)).rows;
    }

    method ExpireActivePastEnd()
      modifies this`rows
      ensures |rows| == |old(rows)| && forall i :: 0 <= i < |rows| ==> rows[i] == ExpireRow(old(rows)[i], today)
    {
      rows := seq(|rows|, i requires 0 <= i < |rows| reads this => ExpireRow(rows[i], today));
    }

    method ReactivatePausedPastEnd()
      modifies this`rows
      ensures |rows| == |old(rows)| && forall i :: 0 <= i < |rows| ==> rows[i] == ReactivateRow(old(rows)[i], today)
    {
      rows := seq(|rows|, i requires 0 <= i < |rows| reads this => ReactivateRow(rows[i], today));
    }

    method ScheduleArrivedPause()
      modifies this`rows
      ensures |rows| == |old(rows)| && forall i :: 0 <= i < |rows| ==> rows[i] == ScheduleRow(old(rows)[i], today)
    {
      rows := seq(|rows|, i requires 0 <= i < |rows| reads this => ScheduleRow(rows[i], today));
    }
  }

  lemma NextTarget(db: Db, f: Filter, i: nat)
    requires i < |db.rows|
    ensures Targets(db, f, i + 1) == if IsTarget(db, f, i) then Targets(db, f, i) + [i] else Targets(db, f, i)
  {
  }

  // ---- the loop of ExtendAll -------------------------------------------

  // The statement for the k-th target: refused exactly when that target reaches a
  // later term, and otherwise one more row of the table is moved.
  lemma ExtendStep(db: Db, f: Filter, days: int, ids: seq<int>, k: int)
    requires CalendarOk(db) && days >= 1 && ids == Targets(db, f, |db.rows|) && 0 <= k < |ids|
    requires forall l :: 0 <= l < k ==> !Reaches(db.rows, ids[l], days)
    ensures var partly := PartlyExtended(db.rows, ids[..k], days, db.today);
      var next := ExtendedRow(partly[ids[k]], days, db.today);
      if Reaches(db.rows, ids[k], days) then Write(partly, ids[k], next) == Violated(PeriodOverlap)
      else Write(partly, ids[k], next) == Written(PartlyExtended(db.rows, ids[..k + 1], days, db.today))
  {
    var i := ids[k];
    var partly := PartlyExtended(db.rows, ids[..k], days, db.today);
    assert RowOk(db.rows[i], db.today);
    assert partly[i] == db.rows[i];
    ClashIsReach(db.rows, ids[..k], i, days, db.today);
    ExtensionKeepsRow(db.rows[i], days, db.today);
    assert ids[..k + 1] == ids[..k] + [i];
    assert partly[i := ExtendedRow(db.rows[i], days, db.today)] ==
      PartlyExtended(db.rows, ids[..k + 1], days, db.today);
  }

  lemma ConflictReport(db: Db, f: Filter, days: int, ids: seq<int>, k: int)
    requires CalendarOk(db) && 1 <= days <= 90 && ids == Targets(db, f, |db.rows|) && 0 <= k < |ids|
    requires Reaches(db.rows, ids[k], days) && forall l :: 0 <= l < k ==> !Reaches(db.rows, ids[l], days)
    ensures BulkExtend(db, f, days) == Outcome(db, ConflictAt(ids[k]))
  {
    OnceOrByRow(db, f, days);
    FirstReachingAt(db.rows, ids, days, k);
  }

  lemma ExtensionComplete(db: Db, f: Filter, days: int, ids: seq<int>)
    requires CalendarOk(db) && 1 <= days <= 90 && ids == Targets(db, f, |db.rows|)
    requires forall l :: 0 <= l < |ids| ==> !Reaches(db.rows, ids[l], days)
    ensures ids[..|ids|] == ids
    ensures PartlyExtended(db.rows, ids, days, db.today) == AllExtended(db, f, days)
    ensures BulkExtend(db, f, days) ==
      Outcome(db.(rows := AllExtended(db, f, days), events := db.events + ExtensionEvents(ids, days)),
        ExtendedRows(|ids|))
  {
    forall i | IsTarget(db, f, i)
      ensures !Reaches(db.rows, i, days)
    {
      assert i in ids;
    }
    OnceOrByRow(db, f, days);
    assert PartlyExtended(db.rows, ids, days, db.today) == AllExtended(db, f, days);
  }
}
