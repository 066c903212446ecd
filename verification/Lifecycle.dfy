// Lifecycle.dfy: what a membership goes through over whole runs. It is paused once, a
// closed one is neither refunded nor paid again, and nobody touches a deleted member.
module Lifecycle {
  import opened Prelude
  import opened Schema
  import opened Engine
  import opened Calendar
  import opened Answers
  import opened Standing

  // ---- one pause per membership ------------------------------------------

  predicate SetsPause(e: Event, id: int) { e.membership == id && e.action.PauseSet? }

  predicate DropsPause(e: Event, id: int) { e.membership == id && e.action.PauseDropped? }

  function Pauses(log: seq<Event>, id: int): nat {
    if log == [] then 0
    else Pauses(log[..|log| - 1], id) + (if SetsPause(log[|log| - 1], id) then 1 else 0)
  }

  function Cancels(log: seq<Event>, id: int): nat {
    if log == [] then 0
    else Cancels(log[..|log| - 1], id) + (if DropsPause(log[|log| - 1], id) then 1 else 0)
  }

  // At no point of the ledger was there more than one pause that was not cancelled.
  predicate OneAtATime(log: seq<Event>, id: int) {
    forall n :: 0 <= n <= |log| ==> 0 <= Pauses(log[..n], id) - Cancels(log[..n], id) <= 1
  }

  predicate PauseCounted(db: Db, i: int)
    requires 0 <= i < |db.rows|
  {
    && Pauses(db.events, i) == Cancels(db.events, i) + (if db.rows[i].pauseUsed then 1 else 0)
    && OneAtATime(db.events, i)
  }

  predicate PausesOk(db: Db) {
    && (forall k :: 0 <= k < |db.events| ==> 0 <= db.events[k].membership < |db.rows|)
    && (forall i :: 0 <= i < |db.rows| ==> PauseCounted(db, i))
  }

  lemma CountsAppend(log: seq<Event>, e: Event, id: int)
    ensures Pauses(log + [e], id) == Pauses(log, id) + (if SetsPause(e, id) then 1 else 0)
    ensures Cancels(log + [e], id) == Cancels(log, id) + (if DropsPause(e, id) then 1 else 0)
  {
    assert (log + [e])[..|log|] == log;
  }

  lemma OneMoreEvent(log: seq<Event>, e: Event, id: int)
    requires OneAtATime(log, id)
    requires 0 <= Pauses(log + [e], id) - Cancels(log + [e], id) <= 1
    ensures OneAtATime(log + [e], id)
  {
    var more := log + [e];
    forall n | 0 <= n <= |more|
      ensures 0 <= Pauses(more[..n], id) - Cancels(more[..n], id) <= 1
    {
      if n <= |log| {
        assert more[..n] == log[..n];
      } else {
        assert more[..n] == more;
      }
    }
  }

  lemma {:induction false} NoEventsNoPauses(log: seq<Event>, id: int)
    requires forall k :: 0 <= k < |log| ==> log[k].membership != id
    ensures Pauses(log, id) == 0 && Cancels(log, id) == 0
  {
    if log != [] {
      NoEventsNoPauses(log[..|log| - 1], id);
    }
  }

  lemma NewRowHasNoPauses(log: seq<Event>, id: int)
    requires forall k :: 0 <= k < |log| ==> log[k].membership != id
    ensures Pauses(log, id) == 0 && Cancels(log, id) == 0 && OneAtATime(log, id)
  {
    forall n | 0 <= n <= |log|
      ensures Pauses(log[..n], id) == 0 && Cancels(log[..n], id) == 0
    {
      NoEventsNoPauses(log[..n], id);
    }
    assert log[..|log|] == log;
  }

  // Events that neither set nor drop a pause do not count.
  lemma {:induction false} QuietEvents(log: seq<Event>, more: seq<Event>, id: int)
    requires OneAtATime(log, id)
    requires forall k :: 0 <= k < |more| ==> !SetsPause(more[k], id) && !DropsPause(more[k], id)
    ensures Pauses(log + more, id) == Pauses(log, id) && Cancels(log + more, id) == Cancels(log, id)
    ensures OneAtATime(log + more, id)
  {
    if more == [] {
      assert log + more == log;
    } else {
      var n := |more| - 1;
      assert log + more == (log + more[..n]) + [more[n]];
      QuietEvents(log, more[..n], id);
      CountsAppend(log + more[..n], more[n], id);
      WholeIsBalanced(log + more[..n], id);
      OneMoreEvent(log + more[..n], more[n], id);
    }
  }

  lemma WholeIsBalanced(log: seq<Event>, id: int)
    requires OneAtATime(log, id)
    ensures 0 <= Pauses(log, id) - Cancels(log, id) <= 1
  {
    assert log[..|log|] == log;
  }

  // A step that sets or drops no pause and leaves the flags alone.
  lemma QuietStep(db: Db, after: Db, more: seq<Event>)
    requires PausesOk(db) && after.events == db.events + more && |db.rows| <= |after.rows|
    requires forall k :: 0 <= k < |more| ==>
      0 <= more[k].membership < |db.rows| && !more[k].action.PauseSet? && !more[k].action.PauseDropped?
    requires forall i :: 0 <= i < |after.rows| ==>
      after.rows[i].pauseUsed == (i < |db.rows| && db.rows[i].pauseUsed)
    ensures PausesOk(after)
  {
    forall i | 0 <= i < |after.rows|
      ensures PauseCounted(after, i)
    {
      if i < |db.rows| {
        assert PauseCounted(db, i);
      } else {
        NewRowHasNoPauses(db.events, i);
      }
      QuietEvents(db.events, more, i);
    }
  }

  // A step that sets or drops the pause of row `id`.
  lemma FlagStep(db: Db, after: Db, id: int, a: Action)
    requires PausesOk(db) && 0 <= id < |db.rows| && |after.rows| == |db.rows|
    requires after.events == db.events + [Event(id, a)]
    requires forall i :: 0 <= i < |db.rows| && i != id ==> after.rows[i] == db.rows[i]
    requires (a.PauseSet? && !db.rows[id].pauseUsed) || (a.PauseDropped? && db.rows[id].pauseUsed)
    requires after.rows[id].pauseUsed == a.PauseSet?
    ensures PausesOk(after)
  {
    forall i | 0 <= i < |after.rows|
      ensures PauseCounted(after, i)
    {
      assert PauseCounted(db, i);
      CountsAppend(db.events, Event(id, a), i);
      OneMoreEvent(db.events, Event(id, a), i);
    }
  }

  lemma PauseRequests(db: Db, req: Request)
    requires PausesOk(db) && (req.PauseReq? || req.CancelPauseReq?)
    ensures PausesOk(Step(db, req).db)
  {
    var after := Step(db, req).db;
    if after != db {
      FlagStep(db, after, req.id, after.events[|db.events|].action);
    }
  }

  lemma ExtensionIsQuiet(db: Db, req: Request)
    requires PausesOk(db) && req.BulkExtendReq?
    ensures PausesOk(Step(db, req).db)
  {
    var after := Step(db, req).db;
    if after != db {
      QuietStep(db, after, ExtensionEvents(Targets(db, req.filter, |db.rows|), req.days));
    }
  }

  lemma RowRequests(db: Db, req: Request)
    requires PausesOk(db) && (req.UnpauseReq? || req.RefundReq? || req.GrantReq? || req.EnterReq?)
    ensures PausesOk(Step(db, req).db)
  {
    var after := Step(db, req).db;
    if after != db {
      QuietStep(db, after, after.events[|db.events|..]);
    }
  }

  lemma DayRequests(db: Db, req: Request)
    requires PausesOk(db) && (req.BatchReq? || req.MidnightReq? || req.AddMemberReq? || req.DropMemberReq?)
    ensures PausesOk(Step(db, req).db)
  {
    assert db.events + [] == db.events;
    QuietStep(db, Step(db, req).db, []);
  }

  // After every run, the pauses recorded for a membership are its recorded cancels, plus
  // one exactly when its flag is set; and they never ran ahead by more than one.
  lemma {:induction false} RunCountsPauses(db: Db, reqs: seq<Request>)
    requires PausesOk(db)
    ensures PausesOk(Run(db, reqs))
    decreases |reqs|
  {
    if reqs != [] {
      var req := reqs[0];
      match req {
        case PauseReq(_, _, _) => PauseRequests(db, req);
        case CancelPauseReq(_, _) => PauseRequests(db, req);
        case BulkExtendReq(_, _) => ExtensionIsQuiet(db, req);
        case UnpauseReq(_, _) => RowRequests(db, req);
        case RefundReq(_, _) => RowRequests(db, req);
        case GrantReq(_, _, _, _, _, _, _) => RowRequests(db, req);
        case EnterReq(_, _) => RowRequests(db, req);
        case _ => DayRequests(db, req);
      }
      RunCountsPauses(Step(db, req).db, reqs[1..]);
    }
  }

  // So between two pauses of one membership the ledger holds a cancel.
  lemma {:induction false} CancelBetween(log: seq<Event>, id: int, k: nat, l: nat)
    requires OneAtATime(log, id) && k < l < |log| && SetsPause(log[k], id) && SetsPause(log[l], id)
    ensures exists c :: k < c < l && DropsPause(log[c], id)
  {
    if forall c :: k < c < l ==> !DropsPause(log[c], id) {
      assert log[..k] + [log[k]] == log[..k + 1] && log[..l] + [log[l]] == log[..l + 1];
      CountsAppend(log[..k], log[k], id);
      CountsAppend(log[..l], log[l], id);
      CountsBetween(log, id, k + 1, l);
    }
  }

  lemma {:induction false} CountsBetween(log: seq<Event>, id: int, k: nat, l: nat)
    requires k <= l <= |log| && forall c :: k <= c < l ==> !DropsPause(log[c], id)
    ensures Pauses(log[..k], id) <= Pauses(log[..l], id) && Cancels(log[..k], id) == Cancels(log[..l], id)
    decreases l
  {
    if k < l {
      CountsBetween(log, id, k, l - 1);
      CountsAppend(log[..l - 1], log[l - 1], id);
      assert log[..l - 1] + [log[l - 1]] == log[..l];
    }
  }

  predicate CancelsIt(db: Db, id: int, req: Request) {
    req.CancelPauseReq? && req.id == id && Step(db, req).reply == Done
  }

  // No request of the run is an accepted cancel of the pause of row `id`.
  predicate NeverCancelled(db: Db, id: int, reqs: seq<Request>)
    decreases |reqs|
  {
    reqs != [] ==> !CancelsIt(db, id, reqs[0]) && NeverCancelled(Step(db, reqs[0]).db, id, reqs[1..])
  }

  lemma FlagStays(db: Db, id: int, req: Request)
    requires 0 <= id < |db.rows| && db.rows[id].pauseUsed && !CancelsIt(db, id, req)
    ensures id < |Step(db, req).db.rows| && Step(db, req).db.rows[id].pauseUsed
  {
  }

  lemma {:induction false} FlagStaysOverRun(db: Db, id: int, reqs: seq<Request>)
    requires 0 <= id < |db.rows| && db.rows[id].pauseUsed && NeverCancelled(db, id, reqs)
    ensures id < |Run(db, reqs).rows| && Run(db, reqs).rows[id].pauseUsed
    decreases |reqs|
  {
    if reqs != [] {
      FlagStays(db, id, reqs[0]);
      FlagStaysOverRun(Step(db, reqs[0]).db, id, reqs[1..]);
    }
  }

  // Once per membership: after an accepted pause, through any requests but an accepted
  // cancel of it, every further pause is refused and changes nothing.
  lemma SecondPauseRefused(db: Db, id: int, scope: Option<int>, w: Window, reqs: seq<Request>,
                           again: Option<int>, v: Window)
    requires Pause(db, id, scope, w).reply == Done && NeverCancelled(Pause(db, id, scope, w).db, id, reqs)
    ensures var late := Run(Pause(db, id, scope, w).db, reqs);
      Pause(late, id, again, v) == Outcome(late, if InReach(late, id, again) then PauseAlreadyUsed else NotFound)
  {
    FlagStaysOverRun(Pause(db, id, scope, w).db, id, reqs);
  }

  // ---- closed rows -------------------------------------------------------

  predicate Closed(m: Membership) { m.status in {Expired, Refunded} }

  lemma OtherPayment(payments: seq<Payment>, p: Payment, i: int)
    requires p.membership != i
    ensures PaymentsOf(payments + [p], i) == PaymentsOf(payments, i)
  {
    PaymentsAppend(payments, p, i);
  }

  lemma ClosedStatus(db: Db, req: Request, i: int)
    requires 0 <= i < |db.rows| && Closed(db.rows[i])
    ensures var after := Step(db, req).db;
      && i < |after.rows|
      && after.rows[i].status == if SoundStep(db, req) || req.id != i then db.rows[i].status else Paused
  {
  }

  lemma ClosedPayments(db: Db, req: Request, i: int)
    requires 0 <= i < |db.rows| && Closed(db.rows[i])
    ensures PaymentsOf(Step(db, req).db.payments, i) == PaymentsOf(db.payments, i)
  {
    var after := Step(db, req).db;
    if (req.GrantReq? || req.RefundReq?) && after != db {
      OtherPayment(db.payments, after.payments[|db.payments|], i);
    }
  }

  // No request writes a payment for a closed membership, and none but a pause from today
  // on changes its status: an expired one is never refunded.
  lemma ClosedRowStays(db: Db, req: Request, i: int)
    requires 0 <= i < |db.rows| && Closed(db.rows[i])
    ensures var after := Step(db, req).db;
      && i < |after.rows|
      && PaymentsOf(after.payments, i) == PaymentsOf(db.payments, i)
      && after.rows[i].status == if SoundStep(db, req) || req.id != i then db.rows[i].status else Paused
  {
    ClosedStatus(db, req, i);
    ClosedPayments(db, req, i);
  }

  // Over a sound run a closed membership stays as it is closed, with the money it has.
  lemma {:induction false} ClosedIsFinal(db: Db, reqs: seq<Request>, i: int)
    requires 0 <= i < |db.rows| && Closed(db.rows[i]) && SoundRun(db, reqs)
    ensures var after := Run(db, reqs);
      && i < |after.rows| && after.rows[i].status == db.rows[i].status
      && PaymentsOf(after.payments, i) == PaymentsOf(db.payments, i)
    decreases |reqs|
  {
    if reqs != [] {
      ClosedRowStays(db, reqs[0], i);
      ClosedIsFinal(Step(db, reqs[0]).db, reqs[1..], i);
    }
  }

  predicate AllPaid(db: Db) { forall i :: 0 <= i < |db.rows| ==> HasPayment(db, i) }

  lemma StepKeepsPaid(db: Db, req: Request)
    requires AllPaid(db)
    ensures AllPaid(Step(db, req).db)
  {
    var after := Step(db, req).db;
    forall i | 0 <= i < |after.rows|
      ensures HasPayment(after, i)
    {
      if i < |db.rows| {
        assert HasPayment(db, i);
        var k :| 0 <= k < |db.payments| && db.payments[k].membership == i && db.payments[k].amount > 0;
        assert after.payments[k] == db.payments[k];
      } else {
        assert after.payments[|db.payments|].membership == i;
      }
    }
  }

  lemma {:induction false} RunKeepsPaid(db: Db, reqs: seq<Request>)
    requires AllPaid(db)
    ensures AllPaid(Run(db, reqs))
    decreases |reqs|
  {
    if reqs != [] {
      StepKeepsPaid(db, reqs[0]);
      RunKeepsPaid(Step(db, reqs[0]).db, reqs[1..]);
    }
  }

  // ---- deleted members ---------------------------------------------------

  predicate Gone(db: Db, member: int) { member in db.members && db.members[member].deleted }

  // No request but the batch changes the rows, payments or check-ins of a deleted member,
  // and none brings the member back.
  lemma GoneIsUntouched(db: Db, req: Request, i: int)
    requires 0 <= i < |db.rows| && Gone(db, db.rows[i].member) && !req.BatchReq? && !req.MidnightReq?
    ensures var after := Step(db, req).db;
      && Gone(after, db.rows[i].member) && i < |after.rows| && after.rows[i] == db.rows[i]
      && PaymentsOf(after.payments, i) == PaymentsOf(db.payments, i)
      && (forall k :: |db.checkIns| <= k < |after.checkIns| ==> after.checkIns[k].member != db.rows[i].member)
  {
    var after := Step(db, req).db;
    if (req.GrantReq? || req.RefundReq?) && after != db {
      OtherPayment(db.payments, after.payments[|db.payments|], i);
    }
  }

  lemma StepKeepsGone(db: Db, req: Request, member: int)
    requires Gone(db, member)
    ensures Gone(Step(db, req).db, member)
  {
  }

  lemma {:induction false} RunKeepsGone(db: Db, reqs: seq<Request>, member: int)
    requires Gone(db, member)
    ensures Gone(Run(db, reqs), member)
    decreases |reqs|
  {
    if reqs != [] {
      StepKeepsGone(db, reqs[0], member);
      RunKeepsGone(Step(db, reqs[0]).db, reqs[1..], member);
    }
  }

  // A deletion is for good: whatever follows, the member is out of reach and has no entry.
  lemma DeletedForGood(db: Db, member: int, reqs: seq<Request>, scope: Option<int>, branch: int)
    requires member in db.members
    ensures var late := Run(Step(db, DropMemberReq(member)).db, reqs);
      && !Reached(late, member, scope)
      && Enter(late, member, branch) == Outcome(late, NoActiveMembership)
  {
    var late := Run(Step(db, DropMemberReq(member)).db, reqs);
    RunKeepsGone(Step(db, DropMemberReq(member)).db, reqs, member);
    EntryRefused(late, member, branch);
  }
}
