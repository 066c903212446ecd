// Tx.dfy: the retrying transaction wrapper.
module Tx {
  import opened Prelude

  const ATTEMPTS := 3

  datatype Result = Success | Failure(code: string) | Cancelled

  // serialization_failure and deadlock_detected.
  predicate Transient(r: Result) { r.Failure? && r.code in {"40001", "40P01"} }

  // What the k-th attempt meets: the statements of the transaction, run on a private
  // copy of the tables, and the answers of the server and of the caller's context.
  datatype World<!S> = World(
    begin: nat -> Result,
    work: (nat, S) -> (S, Result),
    commit: nat -> Result,
    cancelledBefore: nat -> bool,
    cancelledWaiting: nat -> bool)

  // The k-th attempt runs the work on s and gets it committed as t.
  predicate Commits<S(==)>(w: World<S>, k: nat, s: S, t: S) {
    w.begin(k) == Success && w.work(k, s) == (t, Success) && w.commit(k) == Success
  }

  // The k-th attempt ends in r, the first of its answers that is not a success.
  predicate Breaks<S(==)>(w: World<S>, k: nat, s: S, r: Result) {
    && r != Success
    && if w.begin(k) != Success then r == w.begin(k)
       else if w.work(k, s).1 != Success then r == w.work(k, s).1
       else r == w.commit(k)
  }

  // The k-th attempt breaks off with an answer worth another attempt.
  predicate MayRetry<S(==)>(w: World<S>, k: nat, s: S) {
    if w.begin(k) != Success then Transient(w.begin(k))
    else if w.work(k, s).1 != Success then Transient(w.work(k, s).1)
    else Transient(w.commit(k))
  }

  class Database<S(==)> {
    var tables: S

    constructor (s: S)
      ensures tables == s
    {
      tables := s;
    }

    // Commits all of the work or none of it.
    method RunOnce(w: World<S>, k: nat) returns (r: Result)
      modifies this
      ensures if r == Success then Commits(w, k, old(tables), tables)
              else Breaks(w, k, old(tables), r) && tables == old(tables)
    {
      r := w.begin(k);
      if r != Success {
        return;
      }
      var (copy, result) := w.work(k, tables);
      if result != Success {
        return result;
      }
      r := w.commit(k);
      if r == Success {
        tables := copy;
      }
    }

    method WithTx(w: World<S>) returns (r: Result, attempts: nat)
      modifies this
      ensures attempts <= ATTEMPTS
      // A success is the work of the last attempt: begun, done and committed.
      ensures r.Success? ==>
        && attempts > 0
        && w.begin(attempts - 1) == Success
        && w.work(attempts - 1, old(tables)) == (tables, Success)
        && w.commit(attempts - 1) == Success
      // Anything else leaves the tables alone.
      ensures !r.Success? ==> tables == old(tables)
      // Every attempt but the last broke off transiently.
      ensures forall k :: 0 <= k < attempts - 1 ==> MayRetry(w, k, old(tables))
      // A failure is that of the last attempt; a transient one is reported after three.
      ensures r.Failure? ==> attempts > 0 && Breaks(w, attempts - 1, old(tables), r)
      ensures Transient(r) ==> attempts == ATTEMPTS
      // The caller's context is the only other reason to stop.
      ensures r.Cancelled? ==>
        || w.cancelledBefore(attempts)
        || (attempts > 0 && (w.cancelledWaiting(attempts - 1) || Breaks(w, attempts - 1, old(tables), r)))
    {
      attempts := 0;
      r := Cancelled;
      while attempts < ATTEMPTS
        invariant attempts <= ATTEMPTS && tables == old(tables)
        invariant forall k :: 0 <= k < attempts ==> MayRetry(w, k, old(tables))
        invariant if attempts == 0 then r == Cancelled else Breaks(w, attempts - 1, old(tables), r)
      {
        if w.cancelledBefore(attempts) {
          return Cancelled, attempts;
        }
        r := RunOnce(w, attempts);
        attempts := attempts + 1;
        if r == Success || !Transient(r) {
          return;
        }
        if w.cancelledWaiting(attempts - 1) {
          return Cancelled, attempts;
        }
      }
    }
  }
}
