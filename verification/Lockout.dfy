// Lockout.dfy: the authentication columns of an admin row, the login guards, and what
// the failure counter and the lock promise over whole histories.
module Lockout {
  import opened Prelude

  // Times are microseconds.
  const LOCK := 15 * 60 * 1_000_000
  const TEMP_PASSWORD := 24 * 3_600 * 1_000_000
  const MAX_FAILURES := 5

  datatype Row = Row(
    hash: string,
    mustChange: bool,
    tempUntil: Option<int>,
    failures: int,
    lockedUntil: Option<int>,
    changedAt: Option<int>,
    lastLogin: Option<int>,
    deleted: bool)

  // A new admin: temporary password for a day, no cut-off for older tokens.
  function Created(hash: string, now: int): Row {
    Row(hash, true, Some(now + TEMP_PASSWORD), 0, None, None, None, false)
  }

  // ---- the updates -------------------------------------------------------

  // The counter restarts when a lock has run out.
  function NextCount(a: Row, now: int): int {
    if a.lockedUntil.Some? && a.lockedUntil.value <= now && a.failures >= MAX_FAILURES then 1 else a.failures + 1
  }

  function AfterFailure(a: Row, now: int): Row {
    a.(failures := NextCount(a, now),
       lockedUntil := if NextCount(a, now) >= MAX_FAILURES then Some(now + LOCK) else a.lockedUntil)
  }

  function AfterSuccess(a: Row, now: int): Row { a.(failures := 0, lastLogin := Some(now)) }

  function AfterChange(a: Row, hash: string, now: int): Row {
    a.(hash := hash, mustChange := false, tempUntil := None, changedAt := Some(now), failures := 0, lockedUntil := None)
  }

  function AfterReset(a: Row, hash: string, now: int): Row {
    a.(hash := hash, mustChange := true, tempUntil := Some(now + TEMP_PASSWORD), changedAt := Some(now),
       failures := 0, lockedUntil := None)
  }

  datatype Outcome = UnknownUser | Locked(until: int) | TempExpired | WrongPassword | LoggedIn

  // The guards of a login, in order. The password check itself is an oracle.
  function LoginOutcome(a: Row, now: int, ok: bool): Outcome {
    if a.deleted then UnknownUser
    else if a.lockedUntil.Some? && a.lockedUntil.value > now then Locked(a.lockedUntil.value)
    else if a.mustChange && a.tempUntil.Some? && a.tempUntil.value < now then TempExpired
    else if !ok then WrongPassword
    else LoggedIn
  }

  datatype Event =
    | Attempt(ok: bool)
    | ChangePassword(currentOk: bool, hash: string)
    | ResetPassword(hash: string)
    | Bump
    | Delete

  function Step(a: Row, now: int, e: Event): Row {
    if a.deleted then a
    else
      match e
      case Attempt(ok) =>
        (match LoginOutcome(a, now, ok)
         case WrongPassword => AfterFailure(a, now)
         case LoggedIn => AfterSuccess(a, now)
         case _ => a)
      case ChangePassword(currentOk, hash) => if currentOk then AfterChange(a, hash, now) else a
      case ResetPassword(hash) => AfterReset(a, hash, now)
      case Bump => a.(changedAt := Some(now))
      case Delete => a.(deleted := true, changedAt := Some(now))
  }

  // ---- the row updated in place ------------------------------------------

  class Admin {
    var hash: string
    var mustChange: bool
    var tempUntil: Option<int>
    var failures: int
    var lockedUntil: Option<int>
    var changedAt: Option<int>
    var lastLogin: Option<int>
    var deleted: bool

    function State(): Row
      reads this
    {
      Row(hash, mustChange, tempUntil, failures, lockedUntil, changedAt, lastLogin, deleted)
    }

    constructor (h: string, now: int)
      ensures State() == Created(h, now)
    {
      hash, mustChange, tempUntil := h, true, Some(now + TEMP_PASSWORD);
      failures, lockedUntil, changedAt, lastLogin, deleted := 0, None, None, None, false;
    }

    method RecordLoginFailure(now: int)
      modifies this
      ensures State() == AfterFailure(old(State()), now)
    {
      if lockedUntil.Some? && lockedUntil.value <= now && failures >= MAX_FAILURES {
        failures := 1;
      } else {
        failures := failures + 1;
      }
      if failures >= MAX_FAILURES {
        lockedUntil := Some(now + LOCK);
      }
    }

    method RecordLoginSuccess(now: int)
      modifies this
      ensures State() == AfterSuccess(old(State()), now)
    {
      failures := 0;
      lastLogin := Some(now);
    }

    method Login(now: int, ok: bool) returns (r: Outcome)
      modifies this
      ensures r == LoginOutcome(old(State()), now, ok)
      ensures State() == Step(old(State()), now, Attempt(ok))
    {
      if deleted {
        return UnknownUser;
      }
      if lockedUntil.Some? && lockedUntil.value > now {
        return Locked(lockedUntil.value);
      }
      if mustChange && tempUntil.Some? && tempUntil.value < now {
        return TempExpired;
      }
      if !ok {
        RecordLoginFailure(now);
        return WrongPassword;
      }
      RecordLoginSuccess(now);
      return LoggedIn;
    }

    method UpdatePassword(now: int, currentOk: bool, h: string) returns (changed: bool)
      modifies this
      ensures changed == (!old(deleted) && currentOk)
      ensures State() == Step(old(State()), now, ChangePassword(currentOk, h))
    {
      if deleted || !currentOk {
        return false;
      }
      hash, mustChange, tempUntil := h, false, None;
      changedAt := Some(now);
      failures, lockedUntil := 0, None;
      return true;
    }

    method Reset(now: int, h: string) returns (found: bool)
      modifies this
      ensures found == !old(deleted) && State() == Step(old(State()), now, ResetPassword(h))
    {
      if deleted {
        return false;
      }
      hash, mustChange, tempUntil := h, true, Some(now + TEMP_PASSWORD);
      failures, lockedUntil := 0, None;
      changedAt := Some(now);
      return true;
    }

    method BumpPasswordUpdatedAt(now: int) returns (found: bool)
      modifies this
      ensures found == !old(deleted) && State() == Step(old(State()), now, Bump)
    {
      if deleted {
        return false;
      }
      changedAt := Some(now);
      return true;
    }

    method SoftDelete(now: int) returns (found: bool)
      modifies this
      ensures found == !old(deleted) && State() == Step(old(State()), now, Delete)
    {
      if deleted {
        return false;
      }
      deleted, changedAt := true, Some(now);
      return true;
    }
  }

  // ---- histories ---------------------------------------------------------

  // A row and the times of the failed verifications since the last success, password
  // change or reset.
  datatype History = History(row: Row, trail: seq<int>)

  function Advance(h: History, e: Timed<Event>): History {
    var row := Step(h.row, e.now, e.event);
    if h.row.deleted then h
    else
      match e.event
      case Attempt(ok) =>
        (match LoginOutcome(h.row, e.now, ok)
         case WrongPassword => History(row, h.trail + [e.now])
         case LoggedIn => History(row, [])
         case _ => History(row, h.trail))
      case ChangePassword(currentOk, _) => History(row, if currentOk then [] else h.trail)
      case ResetPassword(_) => History(row, [])
      case _ => History(row, h.trail)
  }

  function RunFrom(h: History, es: seq<Timed<Event>>): History {
    if es == [] then h else Advance(RunFrom(h, es[..|es| - 1]), es[|es| - 1])
  }

  // Every history of an account created at time t.
  function Past(hash: string, t: int, es: seq<Timed<Event>>): History { RunFrom(History(Created(hash, t), []), es) }

  // Position in the current round of five.
  function Round(n: nat): int { if n == 0 then 0 else (n - 1) % 5 + 1 }

  ghost predicate TrailOk(trail: seq<int>, clock: int) {
    && (forall i, j :: 0 <= i < j < |trail| ==> trail[i] <= trail[j])
    && (forall i :: 0 <= i < |trail| ==> trail[i] <= clock)
    && (forall i :: 0 <= i < |trail| - 1 && i % 5 == 4 ==> trail[i] + LOCK <= trail[i + 1])
  }

  ghost predicate LockOk(h: History, clock: int) {
    var n := |h.trail|;
    && h.row.failures == Round(n)
    && (h.row.failures == MAX_FAILURES ==> h.row.lockedUntil == Some(h.trail[n - 1] + LOCK))
    && (h.row.failures < MAX_FAILURES && h.row.lockedUntil.Some? ==> h.row.lockedUntil.value <= clock)
  }

  ghost predicate HistoryOk(h: History, clock: int) { TrailOk(h.trail, clock) && LockOk(h, clock) }

  lemma RoundStep(n: nat)
    ensures Round(n) == MAX_FAILURES <==> n % 5 == 0 && n > 0
    ensures Round(n + 1) == if Round(n) == MAX_FAILURES then 1 else Round(n) + 1
    ensures 0 <= Round(n) <= MAX_FAILURES
  {
  }

  lemma FailureKeeps(h: History, clock: int, now: int)
    requires HistoryOk(h, clock) && clock <= now
    requires LoginOutcome(h.row, now, false) == WrongPassword
    ensures HistoryOk(History(AfterFailure(h.row, now), h.trail + [now]), now)
  {
    var n := |h.trail|;
    RoundStep(n);
    var more := h.trail + [now];
    forall i | 0 <= i < |more| - 1 && i % 5 == 4
      ensures more[i] + LOCK <= more[i + 1]
    {
      if i == n - 1 { assert n % 5 == 0; }
    }
  }

  lemma ClockMoves(h: History, clock: int, now: int)
    requires HistoryOk(h, clock) && clock <= now
    ensures HistoryOk(h, now)
  {
  }

  lemma ClearedOk(row: Row, now: int)
    requires row.failures == 0 && (row.lockedUntil.Some? ==> row.lockedUntil.value <= now)
    ensures HistoryOk(History(row, []), now)
  {
  }

  lemma AttemptKeeps(h: History, clock: int, now: int, ok: bool)
    requires HistoryOk(h, clock) && clock <= now && !h.row.deleted
    ensures HistoryOk(Advance(h, Timed(now, Attempt(ok))), now)
  {
    match LoginOutcome(h.row, now, ok)
    case WrongPassword => FailureKeeps(h, clock, now);
    case LoggedIn => ClearedOk(AfterSuccess(h.row, now), now);
    case _ => ClockMoves(h, clock, now);
  }

  lemma SameLockOk(h: History, row: Row, now: int)
    requires HistoryOk(h, now) && row.failures == h.row.failures && row.lockedUntil == h.row.lockedUntil
    ensures HistoryOk(History(row, h.trail), now)
  {
  }

  lemma AdvanceKeeps(h: History, clock: int, e: Timed<Event>)
    requires HistoryOk(h, clock) && clock <= e.now
    ensures HistoryOk(Advance(h, e), e.now)
  {
    ClockMoves(h, clock, e.now);
    if !h.row.deleted {
      match e.event
      case Attempt(ok) => AttemptKeeps(h, clock, e.now, ok);
      case ChangePassword(currentOk, hash) => if currentOk { ClearedOk(AfterChange(h.row, hash, e.now), e.now); }
      case ResetPassword(hash) => ClearedOk(AfterReset(h.row, hash, e.now), e.now);
      case _ => SameLockOk(h, Step(h.row, e.now, e.event), e.now);
    }
  }

  // Over every history: the counter is the number of failures in the current round of
  // five, five means a lock for fifteen minutes from the last failure was set, and
  // below five no lock is pending.
  lemma {:induction false} EveryHistory(hash: string, t: int, es: seq<Timed<Event>>)
    requires Clocked(t, es)
    ensures HistoryOk(Past(hash, t, es), ClockAfter(t, es))
    decreases |es|
  {
    if es != [] {
      EveryHistory(hash, t, es[..|es| - 1]);
      AdvanceKeeps(Past(hash, t, es[..|es| - 1]), ClockAfter(t, es[..|es| - 1]), es[|es| - 1]);
    }
  }

  lemma CounterInRange(hash: string, t: int, es: seq<Timed<Event>>)
    requires Clocked(t, es)
    ensures var a := Past(hash, t, es).row;
            0 <= a.failures <= MAX_FAILURES && (a.failures == MAX_FAILURES ==> a.lockedUntil.Some?)
  {
    EveryHistory(hash, t, es);
    RoundStep(|Past(hash, t, es).trail|);
  }

  // The k-th and the (k+5)-th failed verification are fifteen minutes apart.
  lemma FiveFailuresApart(hash: string, t: int, es: seq<Timed<Event>>, k: nat)
    requires Clocked(t, es) && k + 5 < |Past(hash, t, es).trail|
    ensures var trail := Past(hash, t, es).trail; trail[k] + LOCK <= trail[k + 5]
  {
    EveryHistory(hash, t, es);
    var trail := Past(hash, t, es).trail;
    var j := k + (4 - k % 5);
    assert j % 5 == 4 && k <= j <= k + 4;
    assert trail[j] + LOCK <= trail[j + 1];
    assert (k == j || trail[k] <= trail[j]) && (j + 1 == k + 5 || trail[j + 1] <= trail[k + 5]);
  }

  // When a login is refused as locked: exactly when the failures so far make whole
  // rounds of five and the last of them is less than fifteen minutes ago.
  lemma LockedIff(hash: string, t: int, es: seq<Timed<Event>>, now: int, ok: bool)
    requires Clocked(t, es) && ClockAfter(t, es) <= now && !Past(hash, t, es).row.deleted
    ensures var h := Past(hash, t, es);
            LoginOutcome(h.row, now, ok).Locked? <==>
              |h.trail| > 0 && |h.trail| % 5 == 0 && now < h.trail[|h.trail| - 1] + LOCK
  {
    EveryHistory(hash, t, es);
    RoundStep(|Past(hash, t, es).trail|);
  }

  // ---- when a login succeeds ---------------------------------------------

  predicate Removed(es: seq<Timed<Event>>) { exists i :: 0 <= i < |es| && es[i].event == Delete }

  // When the temporary password in force was handed out, if the admin still has one.
  function TempSince(t: int, es: seq<Timed<Event>>): Option<int> {
    if es == [] then Some(t)
    else
      var before, e := es[..|es| - 1], es[|es| - 1];
      if Removed(before) then TempSince(t, before)
      else if e.event.ResetPassword? then Some(e.now)
      else if e.event.ChangePassword? && e.event.currentOk then None
      else TempSince(t, before)
  }

  // The last password set by a reset or an accepted change.
  function PasswordOf(hash: string, es: seq<Timed<Event>>): string {
    if es == [] then hash
    else
      var before, e := es[..|es| - 1], es[|es| - 1];
      if Removed(before) then PasswordOf(hash, before)
      else if e.event.ResetPassword? || (e.event.ChangePassword? && e.event.currentOk) then e.event.hash
      else PasswordOf(hash, before)
  }

  lemma RemovedNext(es: seq<Timed<Event>>)
    requires es != []
    ensures Removed(es) <==> Removed(es[..|es| - 1]) || es[|es| - 1].event == Delete
  {
    var before := es[..|es| - 1];
    assert forall i :: 0 <= i < |before| ==> before[i] == es[i];
  }

  // The columns of the row, told from the history.
  lemma {:induction false} RowFromHistory(hash: string, t: int, es: seq<Timed<Event>>)
    ensures var a, temp := Past(hash, t, es).row, TempSince(t, es);
      && a.deleted == Removed(es)
      && a.hash == PasswordOf(hash, es)
      && a.mustChange == temp.Some?
      && a.tempUntil == if temp.Some? then Some(temp.value + TEMP_PASSWORD) else None
    decreases |es|
  {
    if es != [] {
      RowFromHistory(hash, t, es[..|es| - 1]);
      RemovedNext(es);
    }
  }

  // A password that matches lets the admin in exactly when the account is not deleted,
  // the failures do not make whole rounds of five that ended within fifteen minutes, and
  // a temporary password is not older than a day.
  lemma LoginSucceedsIff(hash: string, t: int, es: seq<Timed<Event>>, now: int, ok: bool)
    requires Clocked(t, es) && ClockAfter(t, es) <= now
    ensures var h, temp := Past(hash, t, es), TempSince(t, es);
      var n := |h.trail|;
      LoginOutcome(h.row, now, ok) == LoggedIn <==>
        && ok && !Removed(es)
        && !(n > 0 && n % 5 == 0 && now < h.trail[n - 1] + 900_000_000)
        && (temp.Some? ==> now <= temp.value + 86_400_000_000)
  {
    RowFromHistory(hash, t, es);
    if !Removed(es) {
      LockedIff(hash, t, es, now, ok);
    }
  }

  // A deleted admin is unknown ever after.
  lemma {:induction false} DeletedStaysUnknown(h: History, es: seq<Timed<Event>>, now: int, ok: bool)
    requires h.row.deleted
    ensures RunFrom(h, es) == h && LoginOutcome(RunFrom(h, es).row, now, ok) == UnknownUser
    decreases |es|
  {
    if es != [] {
      DeletedStaysUnknown(h, es[..|es| - 1], now, ok);
    }
  }
}
