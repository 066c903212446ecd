// Schema.dfy: the tables of db/migrations/00001_init.sql and what the database
// itself refuses to store.
module Schema {
  import opened Prelude

  // A calendar day, as a day number.
  type Date = int

  // The length of a granted term: start_date.AddDate(0, n, 0) is always later.
  type Days = d: int | d >= 1 witness 1

  // `months` is stored for monthly memberships only, `remaining` for passes only.
  datatype Plan = Monthly(months: int) | Pass10(remaining: int)

  datatype Status = Active | Paused | Refunded | Expired

  // pause_start_date and pause_end_date: both null or both set.
  datatype Window = Window(from: Date, until: Date) {
    function Length(): int { until - from }

    function Shift(days: int): Window { Window(from + days, until + days) }
  }

  datatype Membership = Membership(
    member: int,
    plan: Plan,
    start: Date,
    end: Date,
    status: Status,
    pause: Option<Window>,
    pauseUsed: bool)
  {
    predicate Live() { status.Active? || status.Paused? }

    predicate Covers(day: Date) { start <= day <= end }
  }

  datatype Member = Member(branch: int, deleted: bool)

  datatype PayMethod = Cash | Card

  datatype Payment = Payment(membership: int, branch: int, amount: int, tender: PayMethod, paidAt: Date)

  datatype Action =
    | PauseSet(window: Window)
    | PauseEnded(actual: Date)
    | PauseDropped
    | MoneyBack
    | DaysAdded(days: int)

  datatype Event = Event(membership: int, action: Action)

  datatype CheckIn = CheckIn(member: int, branch: int, membership: int, day: Date)

  // The whole database on one day. A membership's id is its position in `rows`,
  // so "order by id asc" is the order of the sequence.
  datatype Db = Db(
    today: Date,
    members: map<int, Member>,
    rows: seq<Membership>,
    events: seq<Event>,
    payments: seq<Payment>,
    checkIns: seq<CheckIn>)

  const EMPTY: Db := Db(0, map[], [], [], [], [])

  // Two closed date ranges with no common day.
  predicate Apart(a: Membership, b: Membership) {
    a.end < b.start || b.end < a.start
  }

  // The two rows may be stored side by side: memberships_no_period_overlap.
  predicate Compatible(a: Membership, b: Membership) {
    a.Live() && b.Live() && a.member == b.member ==> Apart(a, b)
  }

  predicate NoOverlap(rows: seq<Membership>) {
    forall i, j :: 0 <= i < j < |rows| ==> Compatible(rows[i], rows[j])
  }

  // The constraint as the database checks it: only for the row just written.
  predicate Clashes(rows: seq<Membership>, i: int)
    requires 0 <= i < |rows|
  {
    exists j :: 0 <= j < |rows| && j != i && !Compatible(rows[i], rows[j])
  }

  // The CHECK clauses of the memberships table.
  predicate Admissible(m: Membership) {
    && (m.plan.Monthly? ==> m.plan.months > 0)
    && (m.plan.Pass10? ==> m.plan.remaining >= 0)
    && (m.pause.Some? ==> m.pause.value.from <= m.pause.value.until)
    && (m.status.Paused? ==> m.pause.Some?)
  }
}
