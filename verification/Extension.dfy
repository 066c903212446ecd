// Extension.dfy: the row-by-row bulk extension, with the overlap constraint
// checked at every row, decides and reports exactly what the all-at-once
// extension would.
module Extension {
  import opened Prelude
  import opened Schema
  import opened Engine
  import opened Calendar
  import opened Answers

  // The table when the rows named in `ids` have been moved and the others not yet.
  function PartlyExtended(rows: seq<Membership>, ids: seq<int>, days: int, today: Date): (moved: seq<Membership>)
    ensures |moved| == |rows|
  {
    seq(|rows|, i requires 0 <= i < |rows| => if i in ids then ExtendedRow(rows[i], days, today) else rows[i])
  }

  // The constraint check at one row of the loop fails exactly when the original
  // term of that row, plus the days, reaches a later live membership: which rows
  // were moved before does not matter.
  lemma ClashIsReach(rows: seq<Membership>, done: seq<int>, i: int, days: int, today: Date)
    requires RowsOk(rows, today) && NoOverlap(rows) && days >= 1
    requires 0 <= i < |rows| && rows[i].Live()
    requires forall k :: 0 <= k < |done| ==> 0 <= done[k] < |rows| && !Reaches(rows, done[k], days)
    ensures var moved := PartlyExtended(rows, done, days, today)[i := ExtendedRow(rows[i], days, today)];
      Clashes(moved, i) <==> Reaches(rows, i, days)
  {
    var moved := PartlyExtended(rows, done, days, today)[i := ExtendedRow(rows[i], days, today)];
    forall j | 0 <= j < |rows| && j != i
      ensures !Compatible(moved[i], moved[j]) <==>
        rows[j].Live() && rows[j].member == rows[i].member && rows[i].end < rows[j].start <= rows[i].end + days
    {
      assert Compatible(rows[i], rows[j]) by {
        if i < j { } else { assert Compatible(rows[j], rows[i]); }
      }
      assert RowOk(rows[j], today) && RowOk(rows[i], today);
      if j in done && rows[j].Live() && rows[j].member == rows[i].member && rows[j].end < rows[i].start {
        assert !Reaches(rows, j, days);
      }
    }
    assert !Reaches(rows, i, days) || exists j :: 0 <= j < |rows| && j != i && !Compatible(moved[i], moved[j]);
  }

  // If no target reaches, the extended terms stay apart.
  lemma NoReachNoOverlap(db: Db, f: Filter, days: int)
    requires CalendarOk(db) && days >= 1
    requires forall i :: IsTarget(db, f, i) ==> !Reaches(db.rows, i, days)
    ensures NoOverlap(AllExtended(db, f, days))
  {
    var moved := AllExtended(db, f, days);
    forall i, j | 0 <= i < j < |moved|
      ensures Compatible(moved[i], moved[j])
    {
      assert Compatible(db.rows[i], db.rows[j]);
      assert IsTarget(db, f, i) ==> !Reaches(db.rows, i, days);
      assert IsTarget(db, f, j) ==> !Reaches(db.rows, j, days);
    }
  }

  // A target i that reaches row j runs into it, wherever j is moved to.
  lemma ReachOverlaps(db: Db, f: Filter, days: int, i: int, j: int)
    requires CalendarOk(db) && days >= 1 && IsTarget(db, f, i) && 0 <= j < |db.rows|
    requires db.rows[j].Live() && db.rows[j].member == db.rows[i].member
    requires db.rows[i].end < db.rows[j].start <= db.rows[i].end + days
    ensures !NoOverlap(AllExtended(db, f, days))
  {
    var moved := AllExtended(db, f, days);
    assert RowOk(db.rows[i], db.today) && RowOk(db.rows[j], db.today);
    if i < j {
      assert !Compatible(moved[i], moved[j]);
    } else {
      assert !Compatible(moved[j], moved[i]);
    }
  }

  lemma OnceOrByRow(db: Db, f: Filter, days: int)
    requires CalendarOk(db) && days >= 1
    ensures NoOverlap(AllExtended(db, f, days)) <==> forall i :: IsTarget(db, f, i) ==> !Reaches(db.rows, i, days)
  {
    if forall i :: IsTarget(db, f, i) ==> !Reaches(db.rows, i, days) {
      NoReachNoOverlap(db, f, days);
    } else {
      var i :| IsTarget(db, f, i) && Reaches(db.rows, i, days);
      var j :| 0 <= j < |db.rows| && db.rows[j].Live() && db.rows[j].member == db.rows[i].member
        && db.rows[i].end < db.rows[j].start <= db.rows[i].end + days;
      ReachOverlaps(db, f, days, i, j);
    }
  }

  lemma {:induction false} FirstReachingIsFirst(rows: seq<Membership>, ids: seq<int>, days: int) returns (k: int)
    requires forall l :: 0 <= l < |ids| ==> 0 <= ids[l] < |rows|
    requires exists l :: 0 <= l < |ids| && Reaches(rows, ids[l], days)
    ensures 0 <= k < |ids| && ids[k] == FirstReaching(rows, ids, days) && Reaches(rows, ids[k], days)
    ensures forall l :: 0 <= l < k ==> !Reaches(rows, ids[l], days)
  {
    if Reaches(rows, ids[0], days) {
      k := 0;
    } else {
      var l :| 0 <= l < |ids| && Reaches(rows, ids[l], days);
      assert ids[1..][l - 1] == ids[l];
      var rest := FirstReachingIsFirst(rows, ids[1..], days);
      k := rest + 1;
      forall l | 0 <= l < k
        ensures !Reaches(rows, ids[l], days)
      {
        if l > 0 { assert ids[l] == ids[1..][l - 1]; }
      }
    }
  }

  // The same, read off the loop: the rows before position k did not reach.
  lemma {:induction false} FirstReachingAt(rows: seq<Membership>, ids: seq<int>, days: int, k: int)
    requires forall l :: 0 <= l < |ids| ==> 0 <= ids[l] < |rows|
    requires 0 <= k < |ids| && Reaches(rows, ids[k], days)
    requires forall l :: 0 <= l < k ==> !Reaches(rows, ids[l], days)
    ensures FirstReaching(rows, ids, days) == ids[k]
  {
    if k > 0 {
      FirstReachingAt(rows, ids[1..], days, k - 1);
    }
  }

  // The id reported is the least target that reaches a later term.
  lemma LeastReaching(db: Db, f: Filter, days: int)
    requires exists i :: IsTarget(db, f, i) && Reaches(db.rows, i, days)
    ensures var id := FirstReaching(db.rows, Targets(db, f, |db.rows|), days);
      && IsTarget(db, f, id) && Reaches(db.rows, id, days)
      && forall i :: IsTarget(db, f, i) && i < id ==> !Reaches(db.rows, i, days)
  {
    var ids := Targets(db, f, |db.rows|);
    var i :| IsTarget(db, f, i) && Reaches(db.rows, i, days);
    assert i in ids;
    var k := FirstReachingIsFirst(db.rows, ids, days);
    forall j | IsTarget(db, f, j) && j < ids[k]
      ensures !Reaches(db.rows, j, days)
    {
      TargetsInOrder(ids, j, k);
    }
  }

  lemma TargetsInOrder(ids: seq<int>, j: int, k: int)
    requires forall a, b :: 0 <= a < b < |ids| ==> ids[a] < ids[b]
    requires 0 <= k < |ids| && j in ids && j < ids[k]
    ensures exists l :: 0 <= l < k && ids[l] == j
  {
  }

  // A row the extension is meant for: active or paused, of a member who is not deleted,
  // of the branch given if one is given, a pass or a monthly one if only those are meant.
  predicate Meant(db: Db, f: Filter, m: Membership) {
    && m.status in {Active, Paused}
    && Reached(db, m.member, f.branch)
    && f.passes in {None, Some(m.plan.Pass10?)}
  }

  lemma TargetIsMeant(db: Db, f: Filter, i: int)
    ensures IsTarget(db, f, i) <==> 0 <= i < |db.rows| && Meant(db, f, db.rows[i])
  {
  }

  // What an accepted extension writes for a row.
  predicate RowMoved(db: Db, f: Filter, days: int, before: Membership, after: Membership) {
    if Meant(db, f, before)
    then
      var shifted := if before.pause.Some? then Some(before.pause.value.Shift(days)) else None;
      after == before.(end := before.end + days, pause := shifted)
    else after == before
  }

  // The new events: one for every row meant and for no other, in order of id.
  ghost predicate EventsAdded(db: Db, f: Filter, days: int, after: Db) {
    && db.events <= after.events
    && (forall k :: |db.events| <= k < |after.events| ==>
          && 0 <= after.events[k].membership < |db.rows| && Meant(db, f, db.rows[after.events[k].membership])
          && after.events[k].action == DaysAdded(days))
    && (forall i :: 0 <= i < |db.rows| && Meant(db, f, db.rows[i]) ==>
          exists k :: |db.events| <= k < |after.events| && after.events[k].membership == i)
    && (forall k, l :: |db.events| <= k < l < |after.events| ==>
          after.events[k].membership < after.events[l].membership)
  }

  // The extended term of row i would share a day with another live membership.
  predicate MeantReaches(db: Db, f: Filter, days: int, i: int) {
    0 <= i < |db.rows| && Meant(db, f, db.rows[i]) && Reaches(db.rows, i, days)
  }

  lemma NoneReaches(db: Db, f: Filter, days: int)
    requires CalendarOk(db) && 1 <= days <= 90
    requires forall i :: !MeantReaches(db, f, days, i)
    ensures var ids := Targets(db, f, |db.rows|);
      BulkExtend(db, f, days) ==
        Outcome(db.(rows := AllExtended(db, f, days), events := db.events + ExtensionEvents(ids, days)),
                ExtendedRows(|ids|))
  {
    forall i | IsTarget(db, f, i)
      ensures !Reaches(db.rows, i, days)
    {
      TargetIsMeant(db, f, i);
      assert !MeantReaches(db, f, days, i);
    }
    OnceOrByRow(db, f, days);
  }

  lemma TargetMoves(db: Db, f: Filter, days: int, i: int)
    requires CalendarOk(db) && 0 <= i < |db.rows|
    ensures RowMoved(db, f, days, db.rows[i], AllExtended(db, f, days)[i])
  {
    TargetIsMeant(db, f, i);
    assert RowOk(db.rows[i], db.today);
  }

  // A refused extension names the least row it is meant for whose term would run into a
  // later live membership of the same member.
  lemma RefusedExtension(db: Db, f: Filter, days: int)
    requires CalendarOk(db) && 1 <= days <= 90
    requires exists i :: MeantReaches(db, f, days, i)
    ensures var out := BulkExtend(db, f, days);
      out.db == db && out.reply.ConflictAt? && MeantReaches(db, f, days, out.reply.id)
      && forall i :: i < out.reply.id ==> !MeantReaches(db, f, days, i)
  {
    var i :| MeantReaches(db, f, days, i);
    TargetIsMeant(db, f, i);
    SomeTargetReaches(db, f, days, i);
    LeastReaching(db, f, days);
    var id := FirstReaching(db.rows, Targets(db, f, |db.rows|), days);
    TargetIsMeant(db, f, id);
    forall j | j < id
      ensures !MeantReaches(db, f, days, j)
    {
      TargetIsMeant(db, f, j);
    }
  }

  lemma SomeTargetReaches(db: Db, f: Filter, days: int, i: int)
    requires CalendarOk(db) && 1 <= days <= 90 && IsTarget(db, f, i) && Reaches(db.rows, i, days)
    ensures BulkExtend(db, f, days) == Outcome(db, ConflictAt(FirstReaching(db.rows, Targets(db, f, |db.rows|), days)))
  {
    OnceOrByRow(db, f, days);
  }

  lemma ExtensionLogged(db: Db, f: Filter, days: int)
    ensures var ids := Targets(db, f, |db.rows|);
            EventsAdded(db, f, days, db.(events := db.events + ExtensionEvents(ids, days)))
  {
    var ids := Targets(db, f, |db.rows|);
    var events := db.events + ExtensionEvents(ids, days);
    forall k | |db.events| <= k < |events|
      ensures events[k] == Event(ids[k - |db.events|], DaysAdded(days))
      ensures 0 <= ids[k - |db.events|] < |db.rows| && Meant(db, f, db.rows[ids[k - |db.events|]])
    {
      TargetIsMeant(db, f, ids[k - |db.events|]);
    }
    forall i | 0 <= i < |db.rows| && Meant(db, f, db.rows[i])
      ensures exists k :: |db.events| <= k < |events| && events[k].membership == i
    {
      TargetIsMeant(db, f, i);
      var l :| 0 <= l < |ids| && ids[l] == i;
      assert events[|db.events| + l].membership == i;
    }
  }

  // An extension is accepted exactly when no row it is meant for reaches. It moves every
  // such row by exactly the days, keeps the length of every window, writes one event for
  // each and touches nothing else.
  lemma AcceptedExtension(db: Db, f: Filter, days: int)
    requires CalendarOk(db) && 1 <= days <= 90
    ensures var out := BulkExtend(db, f, days);
      if exists i :: MeantReaches(db, f, days, i) then out.db == db && out.reply.ConflictAt?
      else
        && out.reply == ExtendedRows(|out.db.events| - |db.events|)
        && out.db == db.(rows := out.db.rows, events := out.db.events)
        && |out.db.rows| == |db.rows|
        && (forall i :: 0 <= i < |db.rows| ==> RowMoved(db, f, days, db.rows[i], out.db.rows[i]))
        && EventsAdded(db, f, days, out.db)
  {
    if exists i :: MeantReaches(db, f, days, i) {
      RefusedExtension(db, f, days);
    } else {
      NoneReaches(db, f, days);
      ExtensionLogged(db, f, days);
      forall i | 0 <= i < |db.rows|
        ensures RowMoved(db, f, days, db.rows[i], AllExtended(db, f, days)[i])
      {
        TargetMoves(db, f, days, i);
      }
    }
  }
}
