// Answers.dfy: when each handler does its work, told by the columns of the tables and
// the request alone, and all that it writes then.
module Answers {
  import opened Prelude
  import opened Schema
  import opened Engine
  import opened Calendar

  // A member who is not deleted, of the caller's branch if the caller has one.
  predicate Reached(db: Db, member: int, scope: Option<int>) {
    member in db.members && !db.members[member].deleted && scope in {None, Some(db.members[member].branch)}
  }

  // A live membership of the same member, other than row i, shares a day with m's term.
  predicate Collides(rows: seq<Membership>, i: int, m: Membership) {
    exists j :: 0 <= j < |rows| && j != i && rows[j].status in {Active, Paused} && rows[j].member == m.member
      && rows[j].start <= m.end && m.start <= rows[j].end
  }

  lemma WriteIff(rows: seq<Membership>, i: int, m: Membership)
    requires 0 <= i <= |rows| && Admissible(m) && m.start <= m.end
    ensures Write(rows, i, m) ==
      if m.status in {Active, Paused} && Collides(rows, i, m) then Violated(PeriodOverlap)
      else Written(if i < |rows| then rows[i := m] else rows + [m])
  {
    var written := if i < |rows| then rows[i := m] else rows + [m];
    forall j | 0 <= j < |rows| && j != i
      ensures !Compatible(written[i], written[j]) <==>
        && m.status in {Active, Paused} && rows[j].status in {Active, Paused} && rows[j].member == m.member
        && rows[j].start <= m.end && m.start <= rows[j].end
    {
      assert written[i] == m && written[j] == rows[j];
    }
    assert Clashes(written, i) <==> m.status in {Active, Paused} && Collides(rows, i, m);
  }

  // ---- grant -------------------------------------------------------------

  // A grant is accepted exactly for a positive price, a start that is not past, a month
  // count of at least one, a member in reach and a term of its own. It adds one active
  // row of the type sold and one payment by the member's branch, and nothing else.
  lemma GrantAnswers(db: Db, member: int, scope: Option<int>, offer: Offer, start: Date, term: Days,
                     amount: int, tender: PayMethod)
    requires CalendarOk(db)
    ensures var out := Grant(db, member, scope, offer, start, term, amount, tender);
      var plan := if offer.MonthlyOffer? then Monthly(offer.months) else Pass10(10);
      var m := Membership(member, plan, start, start + term, Active, None, false);
      if (offer.MonthlyOffer? ==> offer.months >= 1) && amount > 0 && start >= db.today && Reached(db, member, scope)
      then
        if Collides(db.rows, |db.rows|, m) then out == Outcome(db, PeriodOverlap)
        else
          var paid := Payment(|db.rows|, db.members[member].branch, amount, tender, db.today);
          out == Outcome(db.(rows := db.rows + [m], payments := db.payments + [paid]), Done)
      else out.db == db && out.reply in {InvalidMonths, InvalidAmount, InvalidStartDate, NotFound}
  {
    var m := Membership(member, PlanOf(offer), start, start + term, Active, None, false);
    if offer.MonthlyOffer? ==> offer.months >= 1 {
      WriteIff(db.rows, |db.rows|, m);
    }
  }

  // ---- pause, unpause, cancel --------------------------------------------

  predicate InReach(db: Db, id: int, scope: Option<int>) {
    0 <= id < |db.rows| && Reached(db, db.rows[id].member, scope)
  }

  // A membership can be paused exactly when it was not paused before (or that pause was
  // cancelled), from today on, inside its term, and when the longer term stays clear of
  // the member's other live memberships, if the row is live afterwards.
  lemma PauseAnswers(db: Db, id: int, scope: Option<int>, w: Window)
    requires CalendarOk(db)
    ensures var out := Pause(db, id, scope, w);
      if !InReach(db, id, scope) then out == Outcome(db, NotFound)
      else
        var m := db.rows[id];
        var n := m.(end := m.end + (w.until - w.from), pause := Some(w), pauseUsed := true,
                    status := if w.from == db.today then Paused else m.status);
        if m.pauseUsed then out == Outcome(db, PauseAlreadyUsed)
        else if w.from < db.today || w.from < m.start || w.until < w.from || m.end < w.until
        then out == Outcome(db, InvalidPauseRange)
        else if n.status in {Active, Paused} && Collides(db.rows, id, n) then out == Outcome(db, PeriodOverlap)
        else out == Outcome(db.(rows := db.rows[id := n], events := db.events + [Event(id, PauseSet(w))]), Done)
  {
    if InReach(db, id, scope) && !db.rows[id].pauseUsed && PauseInRange(db.rows[id], w, db.today) {
      assert RowOk(db.rows[id], db.today);
      WriteIff(db.rows, id, PausedRow(db.rows[id], w, db.today));
    }
  }

  // Exactly the paused rows can be unpaused.
  lemma UnpauseAnswers(db: Db, id: int, scope: Option<int>)
    requires CalendarOk(db)
    ensures var out := Unpause(db, id, scope);
      if !InReach(db, id, scope) then out == Outcome(db, NotFound)
      else if db.rows[id].status != Paused then out == Outcome(db, NotPaused)
      else
        var m := db.rows[id];
        && m.pause.Some?
        && var w := m.pause.value;
        var end := m.end - (w.until - w.from) - (w.until - db.today);
        out == Outcome(db.(rows := db.rows[id := m.(end := end, pause := None, status := Active)],
                           events := db.events + [Event(id, PauseEnded(db.today))]), Done)
  {
    if InReach(db, id, scope) && db.rows[id].status == Paused {
      assert RowOk(db.rows[id], db.today);
      UnpauseAlwaysCommits(db, id, scope);
    }
  }

  // Exactly the pauses of active rows that start on a later day can be cancelled.
  lemma CancelAnswers(db: Db, id: int, scope: Option<int>)
    requires CalendarOk(db)
    ensures var out := CancelPause(db, id, scope);
      if !InReach(db, id, scope) then out == Outcome(db, NotFound)
      else
        var m := db.rows[id];
        if m.status == Active && m.pause.Some? && m.pause.value.from > db.today
        then
          var end := m.end - (m.pause.value.until - m.pause.value.from);
          out == Outcome(db.(rows := db.rows[id := m.(end := end, pause := None, pauseUsed := false)],
                             events := db.events + [Event(id, PauseDropped)]), Done)
        else out == Outcome(db, PauseNotScheduled)
  {
    if InReach(db, id, scope) {
      assert RowOk(db.rows[id], db.today);
      CancelAlwaysCommits(db, id, scope);
    }
  }

  // ---- refund ------------------------------------------------------------

  predicate HasPayment(db: Db, id: int) {
    exists k :: 0 <= k < |db.payments| && db.payments[k].membership == id && db.payments[k].amount > 0
  }

  predicate MirrorsOne(payments: seq<Payment>, id: int, p: Payment, today: Date) {
    exists k :: 0 <= k < |payments| && payments[k].membership == id && payments[k].amount > 0
      && p == Payment(id, payments[k].branch, -payments[k].amount, payments[k].tender, today)
  }

  // Exactly the active and paused memberships can be refunded; an expired or refunded
  // one is refused by name. The status, the mirrored payment and the event are all that
  // is written.
  lemma RefundAnswers(db: Db, id: int, scope: Option<int>)
    requires CalendarOk(db) && (0 <= id < |db.rows| ==> HasPayment(db, id))
    ensures var out := Refund(db, id, scope);
      if !InReach(db, id, scope) then out == Outcome(db, NotFound)
      else if db.rows[id].status == Expired then out == Outcome(db, AlreadyExpired)
      else if db.rows[id].status == Refunded then out == Outcome(db, AlreadyRefunded)
      else
        && out.reply == Done
        && |out.db.payments| == |db.payments| + 1
        && var p := out.db.payments[|db.payments|];
        && MirrorsOne(db.payments, id, p, db.today)
        && out.db == db.(rows := db.rows[id := db.rows[id].(status := Refunded)],
                         payments := db.payments + [p], events := db.events + [Event(id, MoneyBack)])
  {
    if InReach(db, id, scope) && db.rows[id].status in {Active, Paused} {
      assert RowOk(db.rows[id], db.today);
      WriteIff(db.rows, id, db.rows[id].(status := Refunded));
      var k := OriginalPayment(db.payments, id, |db.payments|).value;
      assert MirrorsOne(db.payments, id, Mirror(db.payments[k], db.today), db.today);
    }
  }

  // ---- check-in ----------------------------------------------------------

  // Row i admits the member at the branch today.
  predicate Admits(db: Db, i: int, member: int, branch: int) {
    && 0 <= i < |db.rows| && db.rows[i].member == member && Reached(db, member, Some(branch))
    && db.rows[i].status == Active && db.rows[i].start <= db.today <= db.rows[i].end
  }

  predicate CameToday(db: Db, member: int, branch: int) {
    exists k :: 0 <= k < |db.checkIns| && db.checkIns[k] == CheckIn(member, branch, db.checkIns[k].membership, db.today)
  }

  // Every covering membership, monthly or pass, admits its member as often as he comes.
  // A pass pays for the first visit of the day at the branch and ends with its last one.
  // Only a pass that is used up and still active, which a sound run never has, is refused.
  lemma EntryAccepted(db: Db, member: int, branch: int, i: int)
    requires CalendarOk(db) && Admits(db, i, member, branch)
    ensures var out, m := Enter(db, member, branch), db.rows[i];
      var log := db.checkIns + [CheckIn(member, branch, i, db.today)];
      if m.plan.Monthly? || CameToday(db, member, branch)
      then out == Outcome(db.(checkIns := log), Entered(i, false, false))
      else if m.plan.remaining == 0 then out == Outcome(db, InvalidInput)
      else
        var last := m.plan.remaining == 1;
        var n := m.(plan := Pass10(m.plan.remaining - 1), status := if last then Expired else Active);
        out == Outcome(db.(rows := db.rows[i := n], checkIns := log), Entered(i, true, last))
  {
    EntryIsUnique(db, member, branch, i);
    FirstIsNew(db, member, branch);
    var m := db.rows[i];
    assert RowOk(m, db.today);
    if m.plan.Pass10? && !CameToday(db, member, branch) && m.plan.remaining > 0 {
      ChargeAccepted(db, i);
    }
  }

  lemma FirstIsNew(db: Db, member: int, branch: int)
    ensures FirstOfDay(db.checkIns, member, branch, db.today) <==> !CameToday(db, member, branch)
  {
    if !FirstOfDay(db.checkIns, member, branch, db.today) {
      var k :| 0 <= k < |db.checkIns| && SameDay(db.checkIns[k], member, branch, db.today);
      assert db.checkIns[k] == CheckIn(member, branch, db.checkIns[k].membership, db.today);
    }
  }

  lemma ChargeAccepted(db: Db, i: int)
    requires CalendarOk(db) && 0 <= i < |db.rows| && db.rows[i].status == Active
    requires db.rows[i].plan.Pass10? && db.rows[i].plan.remaining > 0
    ensures Write(db.rows, i, ChargedRow(db.rows[i])) == Written(db.rows[i := ChargedRow(db.rows[i])])
  {
    assert RowOk(db.rows[i], db.today);
    ShorterWriteAccepted(db.rows, i, ChargedRow(db.rows[i]));
  }

  // Without one nothing is written, and the answer tells whether an active membership
  // starts on a later day.
  lemma EntryRefused(db: Db, member: int, branch: int)
    requires forall i :: 0 <= i < |db.rows| ==> !Admits(db, i, member, branch)
    ensures var later := exists i :: 0 <= i < |db.rows| && db.rows[i].member == member
                                  && db.rows[i].status == Active && db.rows[i].start > db.today;
      Enter(db, member, branch) ==
        Outcome(db, if Reached(db, member, Some(branch)) && later then NotStarted else NoActiveMembership)
  {
    var found := Covering(db, member, branch, |db.rows|);
    assert found.Some? ==> Admits(db, found.value, member, branch);
  }
}
