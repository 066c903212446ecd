// History.dfy: the results about whole runs of the membership engine, gathered for a
// gym that starts with empty tables, and what is left when guards and writes interleave.
module History {
  import opened Prelude
  import opened Schema
  import opened Engine
  import opened Calendar
  import opened Ledger
  import opened Visits
  import opened Standing
  import opened Prices
  import opened Answers
  import opened Lifecycle
  import opened Sales

  lemma EmptyIsOk()
    ensures CalendarOk(EMPTY) && LedgerOk(EMPTY, []) && VisitsOk(EMPTY) && AllStand(EMPTY) && PausesOk(EMPTY)
  {
  }

  // After every sequence of requests: no day belongs to two live memberships of one
  // member, every row satisfies its date rules, the ledger explains every end date from
  // the one granted, the visits of every pass add up to ten, every membership was paused
  // once more than it was cancelled if its flag is set and as often if not, and its first
  // payment is the one its grant asked for. The status and money promises hold
  // throughout exactly for the runs whose accepted pauses were sound.
  lemma EveryRun(reqs: seq<Request>)
    ensures var db := Run(EMPTY, reqs);
      && RowsOk(db.rows, db.today)
      && (forall i, j, day :: 0 <= i < j < |db.rows| ==> !ShareDay(db.rows[i], db.rows[j], day))
      && LedgerOk(db, GrantedOver(EMPTY, reqs, []))
      && VisitsOk(db)
      && PausesOk(db)
      && Priced(db, SoldOver(EMPTY, reqs, []))
    ensures StandingThroughout(EMPTY, reqs) <==> SoundRun(EMPTY, reqs)
  {
    EmptyIsOk();
    RunKeepsCalendar(EMPTY, reqs);
    RunKeepsLedger(EMPTY, [], reqs);
    RunKeepsVisits(EMPTY, reqs);
    RunCountsPauses(EMPTY, reqs);
    RunKeepsPriced(EMPTY, reqs, []);
    RunStandsIff(EMPTY, reqs);
    var db := Run(EMPTY, reqs);
    assert forall i :: 0 <= i < |db.rows| ==> RowOk(db.rows[i], db.today);
    NoOverlapIsNoSharedDay(db.rows);
  }

  lemma {:induction false} StandsAtEnd(db: Db, reqs: seq<Request>)
    requires StandingThroughout(db, reqs)
    ensures AllStand(Run(db, reqs))
    decreases |reqs|
  {
    if reqs != [] {
      StandsAtEnd(Step(db, reqs[0]).db, reqs[1..]);
    }
  }

  // After a sound run the money in the till is what the grants of the memberships that
  // were not refunded asked for, and every live pass has a visit left.
  lemma SoundRunBalances(reqs: seq<Request>)
    requires SoundRun(EMPTY, reqs)
    ensures var db, sold := Run(EMPTY, reqs), SoldOver(EMPTY, reqs, []);
      && |sold| == |db.rows|
      && Total(db.payments, Net) == KeptTotal(db.rows, sold, |db.rows|)
      && forall i :: 0 <= i < |db.rows| && db.rows[i].Live() && db.rows[i].plan.Pass10? ==>
        db.rows[i].plan.remaining >= 1
  {
    EmptyIsOk();
    RunStandsIff(EMPTY, reqs);
    StandsAtEnd(EMPTY, reqs);
    var db := Run(EMPTY, reqs);
    RunKeepsPriced(EMPTY, reqs, []);
    AllTimeNet(db, SoldOver(EMPTY, reqs, []));
    forall i | 0 <= i < |db.rows| && db.rows[i].Live() && db.rows[i].plan.Pass10?
      ensures db.rows[i].plan.remaining >= 1
    {
      assert RowStands(db, i);
    }
  }

  // After any run a refund does its work exactly for an active or paused membership in
  // reach; the payment to mirror is always there.
  lemma RefundAfterRun(reqs: seq<Request>, id: int, scope: Option<int>)
    ensures var db := Run(EMPTY, reqs);
      Refund(db, id, scope).reply ==
        if !InReach(db, id, scope) then NotFound
        else
          match db.rows[id].status
          case Active => Done
          case Paused => Done
          case Expired => AlreadyExpired
          case Refunded => AlreadyRefunded
  {
    RunKeepsCalendar(EMPTY, reqs);
    RunKeepsPaid(EMPTY, reqs);
    RefundAnswers(Run(EMPTY, reqs), id, scope);
  }

  // After a sound run every active membership that covers the day lets its member in.
  lemma EntryAfterSoundRun(reqs: seq<Request>, member: int, branch: int, i: int)
    requires SoundRun(EMPTY, reqs) && Admits(Run(EMPTY, reqs), i, member, branch)
    ensures var db := Run(EMPTY, reqs);
      var out := Enter(db, member, branch);
      && out.reply.Entered? && out.reply.membership == i
      && out.db.checkIns == db.checkIns + [CheckIn(member, branch, i, db.today)]
  {
    EmptyIsOk();
    RunKeepsCalendar(EMPTY, reqs);
    RunStandsIff(EMPTY, reqs);
    StandsAtEnd(EMPTY, reqs);
    var db := Run(EMPTY, reqs);
    assert RowStands(db, i);
    EntryAccepted(db, member, branch, i);
  }

  // ---- guards that looked at an older table ------------------------------

  // A statement as it reaches the table: the new version of some row, computed from
  // whatever the handler read before.
  datatype Statement = Statement(id: nat, row: Membership)

  function Applied(rows: seq<Membership>, s: Statement): seq<Membership> {
    if s.id > |rows| then rows
    else
      match Write(rows, s.id, s.row)
      case Written(after) => after
      case Violated(_) => rows
  }

  function AllApplied(rows: seq<Membership>, ss: seq<Statement>): seq<Membership>
    decreases |ss|
  {
    if ss == [] then rows else AllApplied(Applied(rows, ss[0]), ss[1..])
  }

  // The handlers read and check before their transaction. However guards and writes of
  // concurrent requests interleave, the constraint still keeps live terms apart.
  lemma {:induction false} StaleGuardsKeepNoOverlap(rows: seq<Membership>, ss: seq<Statement>)
    requires NoOverlap(rows)
    ensures NoOverlap(AllApplied(rows, ss))
    decreases |ss|
  {
    if ss != [] {
      var s := ss[0];
      if s.id <= |rows| && Write(rows, s.id, s.row).Written? {
        WriteKeepsNoOverlap(rows, s.id, s.row);
      }
      StaleGuardsKeepNoOverlap(Applied(rows, s), ss[1..]);
    }
  }
}
