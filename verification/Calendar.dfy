// Calendar.dfy: the date invariants of the memberships table, kept by every
// request in every run.
module Calendar {
  import opened Prelude
  import opened Schema
  import opened Engine

  // An open pause window lies inside the term, before the days it added.
  predicate WindowFits(m: Membership) {
    m.pause.Some? ==>
      && m.start <= m.pause.value.from <= m.pause.value.until
      && m.pause.value.until <= m.end - m.pause.value.Length()
  }

  // An active row has not run out, except a pause of its final day that ended at
  // the last midnight: that row stays active until the batch runs again.
  predicate NotStale(m: Membership, today: Date) {
    today <= m.end || (m.end == today - 1 && m.pauseUsed && m.pause.None?)
  }

  predicate RowOk(m: Membership, today: Date) {
    && Admissible(m)
    && m.start <= m.end
    && WindowFits(m)
    && (m.pause.Some? ==> m.pauseUsed)
    && (m.status.Paused? ==> m.pause.Some? && today <= m.pause.value.until && m.start <= today)
    && (m.status.Active? && m.pause.Some? ==> today < m.pause.value.from)
    && (m.status.Active? ==> NotStale(m, today))
  }

  predicate RowsOk(rows: seq<Membership>, today: Date) {
    forall i :: 0 <= i < |rows| ==> RowOk(rows[i], today)
  }

  predicate CalendarOk(db: Db) {
    RowsOk(db.rows, db.today) && NoOverlap(db.rows)
  }

  predicate ShareDay(a: Membership, b: Membership, day: Date) {
    a.Live() && b.Live() && a.member == b.member && a.Covers(day) && b.Covers(day)
  }

  // The exclusion constraint says exactly that no day belongs to two live
  // memberships of one member.
  lemma NoOverlapIsNoSharedDay(rows: seq<Membership>)
    requires forall i :: 0 <= i < |rows| ==> rows[i].start <= rows[i].end
    ensures NoOverlap(rows) <==> forall i, j, day :: 0 <= i < j < |rows| ==> !ShareDay(rows[i], rows[j], day)
  {
    if forall i, j, day :: 0 <= i < j < |rows| ==> !ShareDay(rows[i], rows[j], day) {
      forall i, j | 0 <= i < j < |rows|
        ensures Compatible(rows[i], rows[j])
      {
        assert !ShareDay(rows[i], rows[j], rows[i].start);
        assert !ShareDay(rows[i], rows[j], rows[j].start);
      }
    }
  }

  // The per-row constraint check is enough to keep the whole table free of overlaps.
  lemma WriteKeepsNoOverlap(rows: seq<Membership>, i: int, m: Membership)
    requires NoOverlap(rows) && 0 <= i <= |rows|
    requires Write(rows, i, m).Written?
    ensures NoOverlap(Write(rows, i, m).rows)
  {
    var written := Write(rows, i, m).rows;
    forall j, k | 0 <= j < k < |written|
      ensures Compatible(written[j], written[k])
    {
      if j != i && k != i {
        assert Compatible(rows[j], rows[k]);
      }
    }
  }

  // Unpausing and cancelling shorten a term and refunding ends it, so the
  // constraint never refuses them.
  lemma ShorterWriteAccepted(rows: seq<Membership>, i: int, m: Membership)
    requires NoOverlap(rows) && 0 <= i < |rows|
    requires Admissible(m) && m.member == rows[i].member && m.start == rows[i].start
    requires m.Live() ==> rows[i].Live() && m.start <= m.end <= rows[i].end
    ensures Write(rows, i, m).Written?
  {
    var written := rows[i := m];
    forall j | 0 <= j < |rows| && j != i
      ensures Compatible(written[i], written[j])
    {
      assert Compatible(rows[i], rows[j]) by {
        if i < j { } else { assert Compatible(rows[j], rows[i]); }
      }
    }
  }

  // ---- one row under the batch -----------------------------------------

  // At midnight, and again on the same day.
  lemma BatchRowKeepsOk(m: Membership, today: Date, day: Date)
    requires RowOk(m, today) && (day == today || day == today + 1)
    ensures RowOk(BatchRow(m, day), day)
  {
  }

  // No step of the batch changes a term or brings a row back to life.
  lemma BatchRowKeepsTerm(m: Membership, today: Date)
    ensures var b := BatchRow(m, today);
      b.start == m.start && b.end == m.end && b.member == m.member && b.plan == m.plan && b.pauseUsed == m.pauseUsed
    ensures BatchRow(m, today).Live() ==> m.Live()
  {
  }

  lemma BatchKeepsNoOverlap(db: Db)
    requires NoOverlap(db.rows)
    ensures NoOverlap(RunExpiry(db).rows)
  {
    var rows := RunExpiry(db).rows;
    forall i, j | 0 <= i < j < |rows|
      ensures Compatible(rows[i], rows[j])
    {
      assert Compatible(db.rows[i], db.rows[j]);
      BatchRowKeepsTerm(db.rows[i], db.today);
      BatchRowKeepsTerm(db.rows[j], db.today);
    }
  }

  // ---- every request ---------------------------------------------------

  lemma WriteKeepsCalendar(rows: seq<Membership>, i: int, m: Membership, today: Date)
    requires RowsOk(rows, today) && NoOverlap(rows)
    requires 0 <= i <= |rows| && RowOk(m, today)
    ensures Write(rows, i, m).Written? ==> RowsOk(Write(rows, i, m).rows, today) && NoOverlap(Write(rows, i, m).rows)
  {
    if Write(rows, i, m).Written? {
      WriteKeepsNoOverlap(rows, i, m);
    }
  }

  lemma PauseKeepsRow(m: Membership, w: Window, today: Date)
    requires RowOk(m, today) && !m.pauseUsed && PauseInRange(m, w, today)
    ensures RowOk(PausedRow(m, w, today), today)
  {
  }

  lemma UnpauseKeepsRow(m: Membership, today: Date)
    requires RowOk(m, today) && m.status.Paused?
    ensures RowOk(UnpausedRow(m, today), today)
  {
  }

  lemma CancelKeepsRow(m: Membership, today: Date)
    requires RowOk(m, today) && PauseScheduled(m, today)
    ensures RowOk(CancelledRow(m), today)
  {
  }

  lemma ExtensionKeepsRow(m: Membership, days: int, today: Date)
    requires RowOk(m, today) && days >= 1
    ensures RowOk(ExtendedRow(m, days, today), today)
  {
  }

  lemma GrantKeepsCalendar(db: Db, member: int, scope: Option<int>, offer: Offer, start: Date, term: Days,
                           amount: int, tender: PayMethod)
    requires CalendarOk(db)
    ensures CalendarOk(Grant(db, member, scope, offer, start, term, amount, tender).db)
  {
    var m := Membership(member, PlanOf(offer), start, start + term, Active, None, false);
    if Write(db.rows, |db.rows|, m).Written? && start >= db.today {
      WriteKeepsCalendar(db.rows, |db.rows|, m, db.today);
    }
  }

  lemma PauseKeepsCalendar(db: Db, id: int, scope: Option<int>, w: Window)
    requires CalendarOk(db)
    ensures CalendarOk(Pause(db, id, scope, w).db)
  {
    if Visible(db, id, scope) && !db.rows[id].pauseUsed && PauseInRange(db.rows[id], w, db.today) {
      PauseKeepsRow(db.rows[id], w, db.today);
      WriteKeepsCalendar(db.rows, id, PausedRow(db.rows[id], w, db.today), db.today);
    }
  }

  lemma UnpauseKeepsCalendar(db: Db, id: int, scope: Option<int>)
    requires CalendarOk(db)
    ensures CalendarOk(Unpause(db, id, scope).db)
  {
    if Visible(db, id, scope) && db.rows[id].status.Paused? {
      UnpauseKeepsRow(db.rows[id], db.today);
      WriteKeepsCalendar(db.rows, id, UnpausedRow(db.rows[id], db.today), db.today);
    }
  }

  lemma CancelKeepsCalendar(db: Db, id: int, scope: Option<int>)
    requires CalendarOk(db)
    ensures CalendarOk(CancelPause(db, id, scope).db)
  {
    if Visible(db, id, scope) && PauseScheduled(db.rows[id], db.today) {
      CancelKeepsRow(db.rows[id], db.today);
      WriteKeepsCalendar(db.rows, id, CancelledRow(db.rows[id]), db.today);
    }
  }

  lemma RefundKeepsCalendar(db: Db, id: int, scope: Option<int>)
    requires CalendarOk(db)
    ensures CalendarOk(Refund(db, id, scope).db)
  {
    if Visible(db, id, scope) {
      WriteKeepsCalendar(db.rows, id, db.rows[id].(status := Refunded), db.today);
    }
  }

  lemma ExtensionKeepsCalendar(db: Db, f: Filter, days: int)
    requires CalendarOk(db)
    ensures CalendarOk(BulkExtend(db, f, days).db)
  {
    if days >= 1 {
      forall i | 0 <= i < |db.rows|
        ensures RowOk(AllExtended(db, f, days)[i], db.today)
      {
        ExtensionKeepsRow(db.rows[i], days, db.today);
      }
    }
  }

  lemma EntryKeepsCalendar(db: Db, member: int, branch: int)
    requires CalendarOk(db)
    ensures CalendarOk(Enter(db, member, branch).db)
  {
    var found := Covering(db, member, branch, |db.rows|);
    if found.Some? && db.rows[found.value].plan.Pass10? && Admissible(ChargedRow(db.rows[found.value])) {
      WriteKeepsCalendar(db.rows, found.value, ChargedRow(db.rows[found.value]), db.today);
    }
  }

  lemma BatchKeepsCalendar(db: Db, day: Date)
    requires CalendarOk(db) && (day == db.today || day == db.today + 1)
    ensures CalendarOk(RunExpiry(db.(today := day)))
  {
    BatchKeepsNoOverlap(db.(today := day));
    forall i | 0 <= i < |db.rows|
      ensures RowOk(BatchRow(db.rows[i], day), day)
    {
      BatchRowKeepsOk(db.rows[i], db.today, day);
    }
  }

  lemma TickKeepsCalendar(db: Db, req: Request)
    requires CalendarOk(db) && (req.BatchReq? || req.MidnightReq?)
    ensures CalendarOk(Step(db, req).db)
  {
    if req.BatchReq? {
      BatchKeepsCalendar(db, db.today);
      assert db.(today := db.today) == db;
    } else {
      BatchKeepsCalendar(db, db.today + 1);
    }
  }

  lemma MembersKeepCalendar(db: Db, req: Request)
    requires CalendarOk(db) && (req.AddMemberReq? || req.DropMemberReq?)
    ensures CalendarOk(Step(db, req).db)
  {
  }

  lemma StepKeepsCalendar(db: Db, req: Request)
    requires CalendarOk(db)
    ensures CalendarOk(Step(db, req).db)
  {
    match req
    case GrantReq(member, scope, offer, start, term, amount, tender) =>
      GrantKeepsCalendar(db, member, scope, offer, start, term, amount, tender);
    case PauseReq(id, scope, w) => PauseKeepsCalendar(db, id, scope, w);
    case UnpauseReq(id, scope) => UnpauseKeepsCalendar(db, id, scope);
    case CancelPauseReq(id, scope) => CancelKeepsCalendar(db, id, scope);
    case RefundReq(id, scope) => RefundKeepsCalendar(db, id, scope);
    case BulkExtendReq(f, days) => ExtensionKeepsCalendar(db, f, days);
    case EnterReq(member, branch) => EntryKeepsCalendar(db, member, branch);
    case BatchReq => TickKeepsCalendar(db, req);
    case MidnightReq => TickKeepsCalendar(db, req);
    case _ => MembersKeepCalendar(db, req);
  }

  // Safety over whole runs, with no condition on the requests.
  lemma {:induction false} RunKeepsCalendar(db: Db, reqs: seq<Request>)
    requires CalendarOk(db)
    ensures CalendarOk(Run(db, reqs))
    decreases |reqs|
  {
    if reqs != [] {
      StepKeepsCalendar(db, reqs[0]);
      RunKeepsCalendar(Step(db, reqs[0]).db, reqs[1..]);
    }
  }

  // The database refuses none of these: the handler's own guards decide.
  lemma UnpauseAlwaysCommits(db: Db, id: int, scope: Option<int>)
    requires CalendarOk(db) && Visible(db, id, scope) && db.rows[id].status.Paused?
    ensures Unpause(db, id, scope).reply == Done
    ensures var m := Unpause(db, id, scope).db.rows[id];
      m.status.Active? && db.today <= m.end &&
        m.end == db.rows[id].end - db.rows[id].pause.value.Length() - (db.rows[id].pause.value.until - db.today)
  {
    ShorterWriteAccepted(db.rows, id, UnpausedRow(db.rows[id], db.today));
  }

  lemma CancelAlwaysCommits(db: Db, id: int, scope: Option<int>)
    requires CalendarOk(db) && Visible(db, id, scope)
    ensures CancelPause(db, id, scope).reply ==
      (if PauseScheduled(db.rows[id], db.today) then Done else PauseNotScheduled)
  {
    if PauseScheduled(db.rows[id], db.today) {
      ShorterWriteAccepted(db.rows, id, CancelledRow(db.rows[id]));
    }
  }

  // At most one active membership covers today, so the lock in DoCheckIn has one candidate.
  lemma EntryIsUnique(db: Db, member: int, branch: int, i: int)
    requires CalendarOk(db) && 0 <= i < |db.rows| && Enterable(db, i, member, branch)
    ensures Covering(db, member, branch, |db.rows|) == Some(i)
  {
    var found := Covering(db, member, branch, |db.rows|);
  }
}
