// Standing.dfy: what a membership's status promises. A refunded membership has
// its money back and stays refunded, a live one is paid for, a live pass can
// still be used. The Pause handler does not look at the status of the row, so
// these facts hold over a run exactly when no accepted pause starts today on a
// row that is not active.
module Standing {
  import opened Prelude
  import opened Schema
  import opened Engine
  import opened Calendar

  // The payments of one membership, in order of insertion.
  function PaymentsOf(payments: seq<Payment>, id: int): seq<Payment> {
    if payments == [] then []
    else
      var last := payments[|payments| - 1];
      var paid := PaymentsOf(payments[..|payments| - 1], id);
      if last.membership == id then paid + [last] else paid
  }

  // One positive payment; after a refund also its mirror image.
  predicate PaidUp(m: Membership, paid: seq<Payment>) {
    if m.status.Refunded?
    then |paid| == 2 && paid[0].amount > 0 && paid[1] == Mirror(paid[0], paid[1].paidAt)
    else |paid| == 1 && paid[0].amount > 0
  }

  predicate Usable(m: Membership) {
    m.Live() && m.plan.Pass10? ==> m.plan.remaining >= 1
  }

  // A row expires because its term is over or its visits are used up.
  predicate ReallyOver(m: Membership, today: Date) {
    m.status.Expired? ==> m.end < today || (m.plan.Pass10? && m.plan.remaining <= 0)
  }

  predicate RowStands(db: Db, i: int)
    requires 0 <= i < |db.rows|
  {
    && PaidUp(db.rows[i], PaymentsOf(db.payments, i))
    && Usable(db.rows[i])
    && ReallyOver(db.rows[i], db.today)
  }

  predicate PaymentsKnown(db: Db) {
    forall k :: 0 <= k < |db.payments| ==> 0 <= db.payments[k].membership < |db.rows|
  }

  predicate AllStand(db: Db) {
    PaymentsKnown(db) && forall i :: 0 <= i < |db.rows| ==> RowStands(db, i)
  }

  // ---- payments of one membership --------------------------------------

  lemma PaymentsAppend(payments: seq<Payment>, p: Payment, id: int)
    ensures PaymentsOf(payments + [p], id) ==
      (if p.membership == id then PaymentsOf(payments, id) + [p] else PaymentsOf(payments, id))
  {
    assert (payments + [p])[..|payments|] == payments;
  }

  lemma {:induction false} NoPayments(payments: seq<Payment>, id: int)
    requires forall k :: 0 <= k < |payments| ==> payments[k].membership != id
    ensures PaymentsOf(payments, id) == []
  {
    if payments != [] {
      NoPayments(payments[..|payments| - 1], id);
    }
  }

  lemma {:induction false} PaymentIsListed(payments: seq<Payment>, id: int, k: int)
    requires 0 <= k < |payments| && payments[k].membership == id
    ensures payments[k] in PaymentsOf(payments, id)
  {
    if k < |payments| - 1 {
      PaymentIsListed(payments[..|payments| - 1], id, k);
    }
  }

  // The payment a refund mirrors is the one the grant wrote.
  lemma OriginalIsGrant(payments: seq<Payment>, id: int)
    requires |PaymentsOf(payments, id)| == 1 && PaymentsOf(payments, id)[0].amount > 0
    ensures var found := OriginalPayment(payments, id, |payments|);
      found.Some? && payments[found.value] == PaymentsOf(payments, id)[0]
  {
    var found := OriginalPayment(payments, id, |payments|);
    if found.Some? {
      PaymentIsListed(payments, id, found.value);
    } else {
      NoPositivePayment(payments, id);
    }
  }

  lemma {:induction false} NoPositivePayment(payments: seq<Payment>, id: int)
    requires forall k :: 0 <= k < |payments| ==> payments[k].membership != id || payments[k].amount <= 0
    ensures forall l :: 0 <= l < |PaymentsOf(payments, id)| ==> PaymentsOf(payments, id)[l].amount <= 0
  {
    if payments != [] {
      NoPositivePayment(payments[..|payments| - 1], id);
    }
  }

  // ---- steps -----------------------------------------------------------

  // Only row `id` changed, and no payment was written.
  lemma OneRowKeepsStanding(db: Db, after: Db, id: int)
    requires AllStand(db) && 0 <= id < |db.rows| && |after.rows| == |db.rows|
    requires after.payments == db.payments && after.today == db.today
    requires forall i :: 0 <= i < |db.rows| && i != id ==> after.rows[i] == db.rows[i]
    ensures AllStand(after) <==> RowStands(after, id)
  {
    forall i | 0 <= i < |db.rows| && i != id
      ensures RowStands(after, i)
    {
      assert RowStands(db, i);
    }
  }

  // A pause that was accepted keeps the promises exactly when the row was active
  // or the pause starts later than today.
  lemma PauseKeepsStandingIff(db: Db, id: int, scope: Option<int>, w: Window)
    requires CalendarOk(db) && AllStand(db) && Pause(db, id, scope, w).reply == Done
    ensures AllStand(Pause(db, id, scope, w).db) <==> (db.rows[id].status.Active? || w.from > db.today)
  {
    var after := Pause(db, id, scope, w).db;
    assert RowOk(db.rows[id], db.today) && RowStands(db, id);
    assert after.rows[id] == PausedRow(db.rows[id], w, db.today);
    OneRowKeepsStanding(db, after, id);
  }

  lemma RefundKeepsStanding(db: Db, id: int, scope: Option<int>)
    requires AllStand(db)
    ensures AllStand(Refund(db, id, scope).db)
  {
    var after := Refund(db, id, scope).db;
    if after != db {
      assert RowStands(db, id);
      OriginalIsGrant(db.payments, id);
      var back := after.payments[|db.payments|];
      forall i | 0 <= i < |db.rows|
        ensures RowStands(after, i)
      {
        assert RowStands(db, i);
        PaymentsAppend(db.payments, back, i);
      }
    }
  }

  lemma GrantKeepsStanding(db: Db, member: int, scope: Option<int>, offer: Offer, start: Date, term: Days,
                           amount: int, tender: PayMethod)
    requires AllStand(db)
    ensures AllStand(Grant(db, member, scope, offer, start, term, amount, tender).db)
  {
    var after := Grant(db, member, scope, offer, start, term, amount, tender).db;
    if after != db {
      var paid := after.payments[|db.payments|];
      forall i | 0 <= i < |after.rows|
        ensures RowStands(after, i)
      {
        PaymentsAppend(db.payments, paid, i);
        if i < |db.rows| {
          assert RowStands(db, i);
        } else {
          NoPayments(db.payments, i);
        }
      }
    }
  }

  lemma ExtensionKeepsStanding(db: Db, f: Filter, days: int)
    requires AllStand(db)
    ensures AllStand(BulkExtend(db, f, days).db)
  {
    var after := BulkExtend(db, f, days).db;
    if after != db {
      forall i | 0 <= i < |db.rows|
        ensures RowStands(after, i)
      {
        assert RowStands(db, i);
      }
    }
  }

  lemma BatchKeepsStanding(db: Db, day: Date)
    requires AllStand(db) && db.today <= day
    ensures AllStand(RunExpiry(db.(today := day)))
  {
    var after := RunExpiry(db.(today := day));
    forall i | 0 <= i < |db.rows|
      ensures RowStands(after, i)
    {
      assert RowStands(db, i);
      BatchRowKeepsTerm(db.rows[i], day);
    }
  }

  lemma EntryKeepsStanding(db: Db, member: int, branch: int)
    requires AllStand(db)
    ensures AllStand(Enter(db, member, branch).db)
  {
    var found := Covering(db, member, branch, |db.rows|);
    if found.Some? {
      assert RowStands(db, found.value);
      OneRowKeepsStanding(db, Enter(db, member, branch).db, found.value);
    }
  }

  lemma UnpauseKeepsStanding(db: Db, id: int, scope: Option<int>)
    requires AllStand(db)
    ensures AllStand(Unpause(db, id, scope).db)
  {
    if Unpause(db, id, scope).reply == Done {
      assert RowStands(db, id);
      OneRowKeepsStanding(db, Unpause(db, id, scope).db, id);
    }
  }

  lemma CancelKeepsStanding(db: Db, id: int, scope: Option<int>)
    requires AllStand(db)
    ensures AllStand(CancelPause(db, id, scope).db)
  {
    if CancelPause(db, id, scope).reply == Done {
      assert RowStands(db, id);
      OneRowKeepsStanding(db, CancelPause(db, id, scope).db, id);
    }
  }

  predicate SoundStep(db: Db, req: Request) {
    req.PauseReq? && Step(db, req).reply == Done ==>
      db.rows[req.id].status.Active? || req.window.from > db.today
  }

  lemma StepKeepsStandingIff(db: Db, req: Request)
    requires CalendarOk(db) && AllStand(db)
    ensures AllStand(Step(db, req).db) <==> SoundStep(db, req)
  {
    match req
    case GrantReq(member, scope, offer, start, term, amount, tender) =>
      GrantKeepsStanding(db, member, scope, offer, start, term, amount, tender);
    case PauseReq(id, scope, w) =>
      if Pause(db, id, scope, w).reply == Done {
        PauseKeepsStandingIff(db, id, scope, w);
      }
    case UnpauseReq(id, scope) => UnpauseKeepsStanding(db, id, scope);
    case CancelPauseReq(id, scope) => CancelKeepsStanding(db, id, scope);
    case RefundReq(id, scope) => RefundKeepsStanding(db, id, scope);
    case BulkExtendReq(f, days) => ExtensionKeepsStanding(db, f, days);
    case EnterReq(member, branch) => EntryKeepsStanding(db, member, branch);
    case AddMemberReq(member, branch) => SameTablesSameStanding(db, Step(db, req).db);
    case DropMemberReq(member) => SameTablesSameStanding(db, Step(db, req).db);
    case BatchReq => BatchKeepsStanding(db, db.today); assert db.(today := db.today) == db;
    case MidnightReq => BatchKeepsStanding(db, db.today + 1);
  }

  lemma SameTablesSameStanding(db: Db, after: Db)
    requires AllStand(db) && after.rows == db.rows && after.payments == db.payments && after.today == db.today
    ensures AllStand(after)
  {
    forall i | 0 <= i < |db.rows|
      ensures RowStands(after, i)
    {
      assert RowStands(db, i);
    }
  }

  // ---- runs ------------------------------------------------------------

  predicate SoundRun(db: Db, reqs: seq<Request>)
    decreases |reqs|
  {
    reqs != [] ==> SoundStep(db, reqs[0]) && SoundRun(Step(db, reqs[0]).db, reqs[1..])
  }

  predicate StandingThroughout(db: Db, reqs: seq<Request>)
    decreases |reqs|
  {
    AllStand(db) && (reqs != [] ==> StandingThroughout(Step(db, reqs[0]).db, reqs[1..]))
  }

  // The promises hold at every point of a run if and only if every accepted pause
  // in it met an active row or was scheduled for a later day.
  lemma {:induction false} RunStandsIff(db: Db, reqs: seq<Request>)
    requires CalendarOk(db) && AllStand(db)
    ensures StandingThroughout(db, reqs) <==> SoundRun(db, reqs)
    decreases |reqs|
  {
    if reqs != [] {
      var next := Step(db, reqs[0]).db;
      StepKeepsCalendar(db, reqs[0]);
      StepKeepsStandingIff(db, reqs[0]);
      if SoundStep(db, reqs[0]) {
        RunStandsIff(next, reqs[1..]);
      }
    }
  }

  // The failing run, state by state: a pass of any term is sold at any price on day 0.
  datatype Sale = Sale(who: int, branch: int, term: Days, amount: int) {
    function Sold(): Membership { Membership(who, Pass10(10), 0, term, Active, None, false) }

    function Held(): Membership { Sold().(status := Paused, pause := Some(Window(0, 0)), pauseUsed := true) }

    function Price(): Payment { Payment(0, branch, amount, Cash, 0) }

    function Joined(): Db { EMPTY.(members := map[who := Member(branch, false)]) }

    function AfterSale(): Db { Joined().(rows := [Sold()], payments := [Price()]) }

    function AfterRefund(): Db {
      AfterSale().(rows := [Sold().(status := Refunded)], payments := [Price(), Mirror(Price(), 0)],
        events := [Event(0, MoneyBack)])
    }

    function AfterPause(): Db {
      AfterRefund().(rows := [Held()], events := [Event(0, MoneyBack), Event(0, PauseSet(Window(0, 0)))])
    }

    function AfterUnpause(): Db {
      AfterPause().(rows := [Sold().(pauseUsed := true)],
                    events := [Event(0, MoneyBack), Event(0, PauseSet(Window(0, 0))), Event(0, PauseEnded(0))])
    }

    function Requests(): seq<Request> {
      [AddMemberReq(who, branch), GrantReq(who, None, Pass10Offer, 0, term, amount, Cash), RefundReq(0, None),
       PauseReq(0, None, Window(0, 0)), UnpauseReq(0, None)]
    }
  }

  lemma SaleStep(s: Sale)
    requires s.amount > 0
    ensures Step(s.Joined(), s.Requests()[1]).db == s.AfterSale()
  {
    assert Write([], 0, s.Sold()) == Written([s.Sold()]);
  }

  lemma RefundStep(s: Sale)
    requires s.amount > 0
    ensures Step(s.AfterSale(), s.Requests()[2]).db == s.AfterRefund()
  {
    var db := s.AfterSale();
    assert OriginalPayment(db.payments, 0, 1) == Some(0) by {
      assert OriginalPayment(db.payments, 0, 0) == None;
    }
    assert Write(db.rows, 0, s.Sold().(status := Refunded)) == Written(s.AfterRefund().rows);
  }

  lemma PauseAndUnpause(s: Sale)
    ensures Step(s.AfterRefund(), s.Requests()[3]).db == s.AfterPause()
    ensures Step(s.AfterPause(), s.Requests()[4]).db == s.AfterUnpause()
  {
    assert Write(s.AfterRefund().rows, 0, s.Held()) == Written(s.AfterPause().rows);
    assert Write(s.AfterPause().rows, 0, UnpausedRow(s.Held(), 0)) == Written(s.AfterUnpause().rows);
  }

  // Sell a pass, refund it, pause it for today, unpause it: every request is
  // accepted, and the refunded pass is active again with all ten visits.
  lemma RefundedPassComesBack(s: Sale)
    requires s.amount > 0
    ensures var db := Run(EMPTY, s.Requests());
      && db.rows == [s.Sold().(pauseUsed := true)]
      && db.payments == [s.Price(), Mirror(s.Price(), 0)]
      && !AllStand(db)
  {
    assert Step(EMPTY, s.Requests()[0]).db == s.Joined();
    SaleStep(s);
    RefundStep(s);
    PauseAndUnpause(s);
    RunFive(EMPTY, s.Requests());
    PaidBackYetActive(s);
  }

  lemma PaidBackYetActive(s: Sale)
    ensures !AllStand(s.AfterUnpause())
  {
    var db := s.AfterUnpause();
    PaymentsAppend([], s.Price(), 0);
    PaymentsAppend([s.Price()], Mirror(s.Price(), 0), 0);
    assert [] + [s.Price()] == [s.Price()] && [s.Price()] + [Mirror(s.Price(), 0)] == db.payments;
    assert !RowStands(db, 0);
  }

  lemma RunFive(db: Db, reqs: seq<Request>)
    requires |reqs| == 5
    ensures Run(db, reqs) ==
      Step(Step(Step(Step(Step(db, reqs[0]).db, reqs[1]).db, reqs[2]).db, reqs[3]).db, reqs[4]).db
  {
    var r1, r2, r3, r4 := reqs[1..], reqs[2..], reqs[3..], reqs[4..];
    assert r1[1..] == r2 && r2[1..] == r3 && r3[1..] == r4 && r4[1..] == [];
    var db1 := Step(db, reqs[0]).db;
    var db2 := Step(db1, reqs[1]).db;
    var db3 := Step(db2, reqs[2]).db;
    RunOne(db, reqs);
    RunOne(db1, r1);
    RunOne(db2, r2);
    RunOne(db3, r3);
    RunOne(Step(db3, reqs[3]).db, r4);
  }

  lemma RunOne(db: Db, reqs: seq<Request>)
    requires reqs != []
    ensures Run(db, reqs) == Run(Step(db, reqs[0]).db, reqs[1..])
  {
  }
}
