// Visits.dfy: the ten visits of a pass are conserved over every run.
module Visits {
  import opened Prelude
  import opened Schema
  import opened Engine
  import opened Calendar

  // Entry k of the log was the first of its member and branch on its day.
  predicate OpensDay(log: seq<CheckIn>, k: int)
    requires 0 <= k < |log|
  {
    FirstOfDay(log[..k], log[k].member, log[k].branch, log[k].day)
  }

  // The days whose first check-in was recorded on membership `id`.
  function ChargedDays(log: seq<CheckIn>, id: int): set<Date> {
    set k | 0 <= k < |log| && log[k].membership == id && OpensDay(log, k) :: log[k].day
  }

  // Every check-in belongs to a stored membership of that member, at the member's branch.
  predicate LogOk(db: Db) {
    forall k :: 0 <= k < |db.checkIns| ==>
      var c := db.checkIns[k];
      && 0 <= c.membership < |db.rows|
      && db.rows[c.membership].member == c.member
      && c.member in db.members
      && db.members[c.member].branch == c.branch
  }

  predicate Conserved(db: Db, i: int)
    requires 0 <= i < |db.rows|
  {
    db.rows[i].plan.Pass10? ==>
      db.rows[i].plan.remaining >= 0 && db.rows[i].plan.remaining + |ChargedDays(db.checkIns, i)| == 10
  }

  predicate VisitsOk(db: Db) {
    LogOk(db) && forall i :: 0 <= i < |db.rows| ==> Conserved(db, i)
  }

  lemma ChargedAppend(log: seq<CheckIn>, c: CheckIn, id: int)
    ensures ChargedDays(log + [c], id) == ChargedDays(log, id) +
      (if c.membership == id && FirstOfDay(log, c.member, c.branch, c.day) then {c.day} else {})
  {
    var after := log + [c];
    forall k | 0 <= k < |after|
      ensures OpensDay(after, k) <==> if k < |log| then OpensDay(log, k) else FirstOfDay(log, c.member, c.branch, c.day)
    {
      assert after[..k] == if k < |log| then log[..k] else log;
    }
    forall day | day in ChargedDays(log, id)
      ensures day in ChargedDays(after, id)
    {
      var k :| 0 <= k < |log| && log[k].membership == id && OpensDay(log, k) && log[k].day == day;
      assert after[k] == log[k] && OpensDay(after, k);
    }
    if c.membership == id && FirstOfDay(log, c.member, c.branch, c.day) {
      assert after[|log|] == c && OpensDay(after, |log|);
    }
  }

  // A first visit of the day opens a day that was not charged before.
  lemma FirstVisitIsNewDay(db: Db, i: int, branch: int)
    requires LogOk(db) && 0 <= i < |db.rows|
    requires MemberVisible(db, db.rows[i].member, Some(branch))
    requires FirstOfDay(db.checkIns, db.rows[i].member, branch, db.today)
    ensures db.today !in ChargedDays(db.checkIns, i)
  {
    forall k | 0 <= k < |db.checkIns| && db.checkIns[k].membership == i
      ensures db.checkIns[k].day != db.today
    {
      assert !SameDay(db.checkIns[k], db.rows[i].member, branch, db.today);
    }
  }

  lemma EntryKeepsVisits(db: Db, member: int, branch: int)
    requires VisitsOk(db)
    ensures VisitsOk(Enter(db, member, branch).db)
  {
    var found := Covering(db, member, branch, |db.rows|);
    var after := Enter(db, member, branch).db;
    if after != db {
      var id := found.value;
      var c := CheckIn(member, branch, id, db.today);
      assert after.checkIns == db.checkIns + [c];
      forall i | 0 <= i < |db.rows|
        ensures Conserved(after, i)
      {
        assert Conserved(db, i);
        ChargedAppend(db.checkIns, c, i);
        if i == id && FirstOfDay(db.checkIns, member, branch, db.today) {
          FirstVisitIsNewDay(db, i, branch);
        }
      }
    }
  }

  // Any step that writes no check-in and no counter.
  lemma QuietStepKeepsVisits(db: Db, after: Db)
    requires VisitsOk(db) && after.checkIns == db.checkIns
    requires forall who :: who in db.members ==>
      who in after.members && after.members[who].branch == db.members[who].branch
    requires |db.rows| <= |after.rows|
    requires forall i :: 0 <= i < |db.rows| ==>
      after.rows[i].member == db.rows[i].member && after.rows[i].plan == db.rows[i].plan
    requires forall i :: |db.rows| <= i < |after.rows| && after.rows[i].plan.Pass10? ==>
      after.rows[i].plan.remaining == 10
    ensures VisitsOk(after)
  {
    forall i | 0 <= i < |after.rows|
      ensures Conserved(after, i)
    {
      if i < |db.rows| {
        assert Conserved(db, i);
      } else {
        assert ChargedDays(db.checkIns, i) == {};
      }
    }
  }

  lemma QuietLifecycle(db: Db, req: Request)
    requires VisitsOk(db) && (req.PauseReq? || req.UnpauseReq? || req.CancelPauseReq? || req.RefundReq?)
    ensures VisitsOk(Step(db, req).db)
  {
    var after := Step(db, req).db;
    var id := req.id;
    if after != db {
      assert |after.rows| == |db.rows|;
      assert after.rows == db.rows[id := after.rows[id]];
      QuietStepKeepsVisits(db, after);
    }
  }

  lemma QuietGrant(db: Db, req: Request)
    requires VisitsOk(db) && req.GrantReq?
    ensures VisitsOk(Step(db, req).db)
  {
    QuietStepKeepsVisits(db, Step(db, req).db);
  }

  lemma QuietExtension(db: Db, req: Request)
    requires VisitsOk(db) && req.BulkExtendReq?
    ensures VisitsOk(Step(db, req).db)
  {
    QuietStepKeepsVisits(db, Step(db, req).db);
  }

  lemma StepKeepsVisits(db: Db, req: Request)
    requires VisitsOk(db)
    ensures VisitsOk(Step(db, req).db)
  {
    match req
    case GrantReq(_, _, _, _, _, _, _) => QuietGrant(db, req);
    case BulkExtendReq(_, _) => QuietExtension(db, req);
    case EnterReq(member, branch) => EntryKeepsVisits(db, member, branch);
    case AddMemberReq(member, branch) => QuietStepKeepsVisits(db, Step(db, req).db);
    case DropMemberReq(member) => QuietStepKeepsVisits(db, Step(db, req).db);
    case BatchReq => QuietBatch(db, db.today);
    case MidnightReq => QuietBatch(db, db.today + 1);
    case _ => QuietLifecycle(db, req);
  }

  lemma QuietBatch(db: Db, day: Date)
    requires VisitsOk(db)
    ensures VisitsOk(RunExpiry(db.(today := day)))
  {
    forall i | 0 <= i < |db.rows|
      ensures BatchRow(db.rows[i], day).member == db.rows[i].member && BatchRow(db.rows[i], day).plan == db.rows[i].plan
    {
      BatchRowKeepsTerm(db.rows[i], day);
    }
    QuietStepKeepsVisits(db, RunExpiry(db.(today := day)));
  }

  // Remaining visits plus charged days are ten, for every pass and every run;
  // in particular the counter never goes below zero.
  lemma {:induction false} RunKeepsVisits(db: Db, reqs: seq<Request>)
    requires VisitsOk(db)
    ensures VisitsOk(Run(db, reqs))
    decreases |reqs|
  {
    if reqs != [] {
      StepKeepsVisits(db, reqs[0]);
      RunKeepsVisits(Step(db, reqs[0]).db, reqs[1..]);
    }
  }
}
