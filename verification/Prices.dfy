// Prices.dfy: the payment a grant asked for heads the payments of its membership, in
// every run.
module Prices {
  import opened Prelude
  import opened Schema
  import opened Engine
  import opened Standing

  // The payments asked for by the accepted grants of a run, in order of the new rows.
  function SoldAfter(db: Db, req: Request, sold: seq<Payment>): seq<Payment> {
    if |Step(db, req).db.rows| > |db.rows| && req.GrantReq? && req.member in db.members
    then sold + [Payment(|db.rows|, db.members[req.member].branch, req.amount, req.tender, db.today)]
    else sold
  }

  function SoldOver(db: Db, reqs: seq<Request>, sold: seq<Payment>): seq<Payment>
    decreases |reqs|
  {
    if reqs == [] then sold else SoldOver(Step(db, reqs[0]).db, reqs[1..], SoldAfter(db, reqs[0], sold))
  }

  predicate FirstPaid(payments: seq<Payment>, i: int, price: Payment) {
    PaymentsOf(payments, i) != [] && PaymentsOf(payments, i)[0] == price
  }

  predicate Priced(db: Db, sold: seq<Payment>) {
    && |sold| == |db.rows|
    && PaymentsKnown(db)
    && forall i :: 0 <= i < |sold| ==> FirstPaid(db.payments, i, sold[i])
  }

  // One more payment of a membership leaves the first one where it is.
  lemma LaterPaymentKeepsPriced(db: Db, after: Db, sold: seq<Payment>, p: Payment)
    requires Priced(db, sold) && |after.rows| == |db.rows|
    requires after.payments == db.payments + [p] && 0 <= p.membership < |db.rows|
    ensures Priced(after, sold)
  {
    forall i | 0 <= i < |sold|
      ensures FirstPaid(after.payments, i, sold[i])
    {
      PaymentsAppend(db.payments, p, i);
    }
  }

  lemma GrantKeepsPriced(db: Db, req: Request, sold: seq<Payment>)
    requires Priced(db, sold) && req.GrantReq?
    ensures Priced(Step(db, req).db, SoldAfter(db, req, sold))
  {
    var after := Step(db, req).db;
    if |after.rows| > |db.rows| {
      var paid := after.payments[|db.payments|];
      var more := SoldAfter(db, req, sold);
      forall i | 0 <= i < |more|
        ensures FirstPaid(after.payments, i, more[i])
      {
        PaymentsAppend(db.payments, paid, i);
        if i < |sold| {
          assert FirstPaid(db.payments, i, sold[i]);
        } else {
          NoPayments(db.payments, i);
        }
      }
    }
  }

  lemma RefundKeepsPriced(db: Db, req: Request, sold: seq<Payment>)
    requires Priced(db, sold) && req.RefundReq?
    ensures Priced(Step(db, req).db, sold)
  {
    var after := Step(db, req).db;
    if after != db {
      LaterPaymentKeepsPriced(db, after, sold, after.payments[|db.payments|]);
    }
  }

  // No other request writes a payment or adds a row.
  lemma OthersWriteNoPayment(db: Db, req: Request)
    requires !req.GrantReq? && !req.RefundReq?
    ensures Step(db, req).db.payments == db.payments && |Step(db, req).db.rows| == |db.rows|
  {
  }

  // Whatever the requests, the first payment of every membership is the one its grant
  // asked for: amount, method, branch and day.
  lemma {:induction false} RunKeepsPriced(db: Db, reqs: seq<Request>, sold: seq<Payment>)
    requires Priced(db, sold)
    ensures Priced(Run(db, reqs), SoldOver(db, reqs, sold))
    decreases |reqs|
  {
    if reqs != [] {
      var req := reqs[0];
      if req.GrantReq? {
        GrantKeepsPriced(db, req, sold);
      } else if req.RefundReq? {
        RefundKeepsPriced(db, req, sold);
        assert SoldAfter(db, req, sold) == sold;
      } else {
        OthersWriteNoPayment(db, req);
        assert SoldAfter(db, req, sold) == sold;
      }
      RunKeepsPriced(Step(db, req).db, reqs[1..], SoldAfter(db, req, sold));
    }
  }
}
