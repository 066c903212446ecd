// Engine.dfy: what each handler does to the database, as functions on values.
// The class in Store.dfy is proved against these functions.
module Engine {
  import opened Prelude
  import opened Schema

  datatype Reply =
    | Done
    | Entered(membership: int, first: bool, newlyExpired: bool)
    | ExtendedRows(count: int)
    | ConflictAt(id: int)
    | NotFound
    | InvalidInput
    | InvalidMonths
    | InvalidAmount
    | InvalidStartDate
    | InvalidPauseRange
    | InvalidExtendDays
    | PauseAlreadyUsed
    | NotPaused
    | PauseNotScheduled
    | PeriodOverlap
    | AlreadyExpired
    | AlreadyRefunded
    | NoPaymentToMirror
    | NotStarted
    | NoActiveMembership
    | Internal

  datatype Outcome = Outcome(db: Db, reply: Reply)

  // ---- one row ---------------------------------------------------------

  function PausedRow(m: Membership, w: Window, today: Date): Membership {
    m.(pause := Some(w), pauseUsed := true, end := m.end + w.Length(),
       status := if w.from <= today then Paused else m.status)
  }

  function UnpausedRow(m: Membership, actual: Date): Membership
    requires m.pause.Some?
  {
    var w := m.pause.value;
    m.(end := m.end - w.Length() - (w.until - actual), pause := None, status := Active)
  }

  function CancelledRow(m: Membership): Membership
    requires m.pause.Some?
  {
    m.(end := m.end - m.pause.value.Length(), pause := None, pauseUsed := false)
  }

  // A pause that is running, or scheduled for a later day.
  predicate WindowMoves(m: Membership, today: Date) {
    && m.pause.Some?
    && (m.status.Paused? || (m.status.Active? && m.pauseUsed && m.pause.value.from > today))
  }

  function ExtendedRow(m: Membership, days: int, today: Date): Membership {
    m.(end := m.end + days,
       pause := if WindowMoves(m, today) then Some(m.pause.value.Shift(days)) else m.pause)
  }

  // The visit that leaves `remaining` at zero ends the pass in the same write.
  function ChargedRow(m: Membership): Membership
    requires m.plan.Pass10?
  {
    var left := m.plan.remaining - 1;
    m.(plan := Pass10(left), status := if left <= 0 then Expired else m.status)
  }

  // ---- one statement ---------------------------------------------------

  datatype WriteResult = Written(rows: seq<Membership>) | Violated(reply: Reply)

  // An UPDATE of row i, or an INSERT when i is the next id.
  function Write(rows: seq<Membership>, i: int, m: Membership): WriteResult
    requires 0 <= i <= |rows|
  {
    var written := if i < |rows| then rows[i := m] else rows + [m];
    if !Admissible(m) then Violated(InvalidInput)
    else if m.Live() && m.start > m.end then Violated(Internal)
    else if Clashes(written, i) then Violated(PeriodOverlap)
    else Written(written)
  }

  // GetMember / GetMembership: soft-deleted members and foreign branches are missing.
  predicate MemberVisible(db: Db, member: int, scope: Option<int>) {
    && member in db.members
    && !db.members[member].deleted
    && (scope.Some? ==> db.members[member].branch == scope.value)
  }

  predicate Visible(db: Db, id: int, scope: Option<int>) {
    0 <= id < |db.rows| && MemberVisible(db, db.rows[id].member, scope)
  }

  // ---- handlers --------------------------------------------------------

  datatype Offer = MonthlyOffer(months: int) | Pass10Offer

  function PlanOf(offer: Offer): Plan {
    match offer
    case MonthlyOffer(n) => Monthly(n)
    case Pass10Offer => Pass10(10)
  }

  function Grant(db: Db, member: int, scope: Option<int>, offer: Offer, start: Date, term: Days,
                 amount: int, tender: PayMethod): Outcome
  {
    if offer.MonthlyOffer? && offer.months < 1 then Outcome(db, InvalidMonths)
    else if amount <= 0 then Outcome(db, InvalidAmount)
    else if start < db.today then Outcome(db, InvalidStartDate)
    else if !MemberVisible(db, member, scope) then Outcome(db, NotFound)
    else
      var m := Membership(member, PlanOf(offer), start, start + term, Active, None, false);
      match Write(db.rows, |db.rows|, m)
      case Violated(why) => Outcome(db, why)
      case Written(rows) =>
        var paid := Payment(|db.rows|, db.members[member].branch, amount, tender, db.today);
        Outcome(db.(rows := rows, payments := db.payments + [paid]), Done)
  }

  predicate PauseInRange(m: Membership, w: Window, today: Date) {
    w.from <= w.until && today <= w.from && m.start <= w.from && w.until <= m.end
  }

  // The handler never looks at the status of the row.
  function Pause(db: Db, id: int, scope: Option<int>, w: Window): Outcome {
    if !Visible(db, id, scope) then Outcome(db, NotFound)
    else if db.rows[id].pauseUsed then Outcome(db, PauseAlreadyUsed)
    else if !PauseInRange(db.rows[id], w, db.today) then Outcome(db, InvalidPauseRange)
    else
      match Write(db.rows, id, PausedRow(db.rows[id], w, db.today))
      case Violated(why) => Outcome(db, why)
      case Written(rows) => Outcome(db.(rows := rows, events := db.events + [Event(id, PauseSet(w))]), Done)
  }

  function Unpause(db: Db, id: int, scope: Option<int>): Outcome {
    if !Visible(db, id, scope) then Outcome(db, NotFound)
    else if !db.rows[id].status.Paused? then Outcome(db, NotPaused)
    else if db.rows[id].pause.None? then Outcome(db, Internal)
    else
      match Write(db.rows, id, UnpausedRow(db.rows[id], db.today))
      case Violated(why) => Outcome(db, why)
      case Written(rows) => Outcome(db.(rows := rows, events := db.events + [Event(id, PauseEnded(db.today))]), Done)
  }

  predicate PauseScheduled(m: Membership, today: Date) {
    m.status.Active? && m.pauseUsed && m.pause.Some? && m.pause.value.from > today
  }

  function CancelPause(db: Db, id: int, scope: Option<int>): Outcome {
    if !Visible(db, id, scope) then Outcome(db, NotFound)
    else if !PauseScheduled(db.rows[id], db.today) then Outcome(db, PauseNotScheduled)
    else
      match Write(db.rows, id, CancelledRow(db.rows[id]))
      case Violated(why) => Outcome(db, why)
      case Written(rows) => Outcome(db.(rows := rows, events := db.events + [Event(id, PauseDropped)]), Done)
  }

  // The earliest positive payment of a membership among the first n: paid_at, then id.
  function OriginalPayment(payments: seq<Payment>, id: int, n: nat): (found: Option<nat>)
    requires n <= |payments|
    ensures found.Some? ==>
      found.value < n && payments[found.value].membership == id && payments[found.value].amount > 0
    ensures found.None? ==> forall k :: 0 <= k < n ==> payments[k].membership != id || payments[k].amount <= 0
  {
    if n == 0 then None
    else
      var best := OriginalPayment(payments, id, n - 1);
      var p := payments[n - 1];
      if p.membership == id && p.amount > 0 && (best.None? || p.paidAt < payments[best.value].paidAt)
      then Some(n - 1) else best
  }

  function Mirror(p: Payment, today: Date): Payment {
    p.(amount := -p.amount, paidAt := today)
  }

  function Refund(db: Db, id: int, scope: Option<int>): Outcome {
    if !Visible(db, id, scope) then Outcome(db, NotFound)
    else if db.rows[id].status.Expired? then Outcome(db, AlreadyExpired)
    else if db.rows[id].status.Refunded? then Outcome(db, AlreadyRefunded)
    else
      match OriginalPayment(db.payments, id, |db.payments|)
      case None => Outcome(db, NoPaymentToMirror)
      case Some(k) =>
        match Write(db.rows, id, db.rows[id].(status := Refunded))
        case Violated(why) => Outcome(db, why)
        case Written(rows) =>
          Outcome(db.(rows := rows,
                      payments := db.payments + [Mirror(db.payments[k], db.today)],
                      events := db.events + [Event(id, MoneyBack)]), Done)
  }

  // ---- check-in --------------------------------------------------------

  predicate Enterable(db: Db, i: int, member: int, branch: int)
    requires 0 <= i < |db.rows|
  {
    && db.rows[i].member == member
    && MemberVisible(db, member, Some(branch))
    && db.rows[i].status.Active?
    && db.rows[i].Covers(db.today)
  }

  // "order by end_date asc, id asc limit 1" over the first n rows.
  function Covering(db: Db, member: int, branch: int, n: nat): (found: Option<nat>)
    requires n <= |db.rows|
    ensures found.Some? ==> found.value < n && Enterable(db, found.value, member, branch)
    ensures found.None? ==> forall i :: 0 <= i < n ==> !Enterable(db, i, member, branch)
  {
    if n == 0 then None
    else
      var best := Covering(db, member, branch, n - 1);
      if Enterable(db, n - 1, member, branch) && (best.None? || db.rows[n - 1].end < db.rows[best.value].end)
      then Some(n - 1) else best
  }

  predicate SameDay(c: CheckIn, member: int, branch: int, day: Date) {
    c.member == member && c.branch == branch && c.day == day
  }

  predicate FirstOfDay(log: seq<CheckIn>, member: int, branch: int, day: Date) {
    forall k :: 0 <= k < |log| ==> !SameDay(log[k], member, branch, day)
  }

  predicate StartsLater(db: Db, member: int, branch: int) {
    && MemberVisible(db, member, Some(branch))
    && exists i :: 0 <= i < |db.rows| && db.rows[i].member == member
                && db.rows[i].status.Active? && db.rows[i].start > db.today
  }

  function Enter(db: Db, member: int, branch: int): Outcome {
    match Covering(db, member, branch, |db.rows|)
    case None => Outcome(db, if StartsLater(db, member, branch) then NotStarted else NoActiveMembership)
    case Some(i) =>
      var visit := CheckIn(member, branch, i, db.today);
      var first := FirstOfDay(db.checkIns, member, branch, db.today);
      if first && db.rows[i].plan.Pass10? then
        match Write(db.rows, i, ChargedRow(db.rows[i]))
        case Violated(why) => Outcome(db, why)
        case Written(rows) =>
          Outcome(db.(rows := rows, checkIns := db.checkIns + [visit]), Entered(i, true, rows[i].status.Expired?))
      else Outcome(db.(checkIns := db.checkIns + [visit]), Entered(i, false, false))
  }

  // ---- bulk extension --------------------------------------------------

  datatype Filter = Filter(branch: Option<int>, passes: Option<bool>)

  // A row the extension is meant for: live, of a member who is not deleted, inside the filters.
  predicate IsTarget(db: Db, f: Filter, i: int) {
    && 0 <= i < |db.rows|
    && db.rows[i].Live()
    && MemberVisible(db, db.rows[i].member, f.branch)
    && (f.passes.Some? ==> db.rows[i].plan.Pass10? == f.passes.value)
  }

  // The ids of the targets among the first n rows, ascending.
  function Targets(db: Db, f: Filter, n: nat): (ids: seq<int>)
    requires n <= |db.rows|
    ensures forall k :: 0 <= k < |ids| ==> ids[k] < n && IsTarget(db, f, ids[k])
    ensures forall i :: 0 <= i < n && IsTarget(db, f, i) ==> i in ids
    ensures forall k, l :: 0 <= k < l < |ids| ==> ids[k] < ids[l]
  {
    if n == 0 then []
    else Targets(db, f, n - 1) + (if IsTarget(db, f, n - 1) then [n - 1] else [])
  }

  // Every target moved at once.
  function AllExtended(db: Db, f: Filter, days: int): (rows: seq<Membership>)
    ensures |rows| == |db.rows|
  {
    seq(|db.rows|, i requires 0 <= i < |db.rows| =>
      if IsTarget(db, f, i) then ExtendedRow(db.rows[i], days, db.today) else db.rows[i])
  }

  // The extended term runs into a later live membership of the same member.
  predicate Reaches(rows: seq<Membership>, i: int, days: int)
    requires 0 <= i < |rows|
  {
    exists j :: 0 <= j < |rows| && rows[j].Live() && rows[j].member == rows[i].member
      && rows[i].end < rows[j].start <= rows[i].end + days
  }

  // The first of the given ids whose term reaches a later one.
  function FirstReaching(rows: seq<Membership>, ids: seq<int>, days: int): (id: int)
    requires forall k :: 0 <= k < |ids| ==> 0 <= ids[k] < |rows|
  {
    if ids == [] then -1
    else if Reaches(rows, ids[0], days) then ids[0]
    else FirstReaching(rows, ids[1..], days)
  }

  function ExtensionEvents(ids: seq<int>, days: int): (es: seq<Event>)
    ensures |es| == |ids|
    ensures forall k :: 0 <= k < |ids| ==> es[k] == Event(ids[k], DaysAdded(days))
  {
    seq(|ids|, k requires 0 <= k < |ids| => Event(ids[k], DaysAdded(days)))
  }

  function BulkExtend(db: Db, f: Filter, days: int): Outcome {
    if days < 1 || days > 90 then Outcome(db, InvalidExtendDays)
    else
      var ids := Targets(db, f, |db.rows|);
      var moved := AllExtended(db, f, days);
      if NoOverlap(moved)
      then Outcome(db.(rows := moved, events := db.events + ExtensionEvents(ids, days)), ExtendedRows(|ids|))
      else Outcome(db, ConflictAt(FirstReaching(db.rows, ids, days)))
  }

  // ---- the daily batch -------------------------------------------------

  function ExpireRow(m: Membership, today: Date): Membership {
    if m.status.Active? && m.end < today then m.(status := Expired) else m
  }

  function ReactivateRow(m: Membership, today: Date): Membership {
    if m.status.Paused? && m.pause.Some? && m.pause.value.until < today
    then m.(status := Active, pause := None) else m
  }

  function ScheduleRow(m: Membership, today: Date): Membership {
    if m.status.Active? && m.pause.Some? && m.pause.value.from == today
    then m.(status := Paused) else m
  }

  function BatchRow(m: Membership, today: Date): Membership {
    ScheduleRow(ReactivateRow(ExpireRow(m, today), today), today)
  }

  function RunExpiry(db: Db): Db {
    db.(rows := seq(|db.rows|, i requires 0 <= i < |db.rows| => BatchRow(db.rows[i], db.today)))
  }

  // ---- runs ------------------------------------------------------------

  datatype Request =
    | GrantReq(member: int, scope: Option<int>, offer: Offer, start: Date, term: Days, amount: int, tender: PayMethod)
    | PauseReq(id: int, scope: Option<int>, window: Window)
    | UnpauseReq(id: int, scope: Option<int>)
    | CancelPauseReq(id: int, scope: Option<int>)
    | RefundReq(id: int, scope: Option<int>)
    | BulkExtendReq(filter: Filter, days: int)
    | EnterReq(member: int, branch: int)
    | AddMemberReq(member: int, branch: int)
    | DropMemberReq(member: int)
    | BatchReq
    | MidnightReq

  // Midnight: the date advances by one day and the batch runs.
  function Step(db: Db, req: Request): Outcome {
    match req
    case GrantReq(member, scope, offer, start, term, amount, tender) =>
      Grant(db, member, scope, offer, start, term, amount, tender)
    case PauseReq(id, scope, w) => Pause(db, id, scope, w)
    case UnpauseReq(id, scope) => Unpause(db, id, scope)
    case CancelPauseReq(id, scope) => CancelPause(db, id, scope)
    case RefundReq(id, scope) => Refund(db, id, scope)
    case BulkExtendReq(f, days) => BulkExtend(db, f, days)
    case EnterReq(member, branch) => Enter(db, member, branch)
    case AddMemberReq(member, branch) =>
      if member in db.members then Outcome(db, InvalidInput)
      else Outcome(db.(members := db.members[member := Member(branch, false)]), Done)
    case DropMemberReq(member) =>
      if !MemberVisible(db, member, None) then Outcome(db, NotFound)
      else Outcome(db.(members := db.members[member := db.members[member].(deleted := true)]), Done)
    case BatchReq => Outcome(RunExpiry(db), Done)
    case MidnightReq => Outcome(RunExpiry(db.(today := db.today + 1)), Done)
  }

  function Run(db: Db, reqs: seq<Request>): Db
    decreases |reqs|
  {
    if reqs == [] then db else Run(Step(db, reqs[0]).db, reqs[1..])
  }
}
