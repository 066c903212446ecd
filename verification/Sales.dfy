// Sales.dfy: the sales summary is a faithful split of the payments ledger, and the
// ledger balances against the memberships.
module Sales {
  import opened Prelude
  import opened Schema
  import opened Engine
  import opened Standing
  import opened Prices

  datatype Bucket = Bucket(gross: int, refund: int, net: int) {
    function Plus(b: Bucket): Bucket { Bucket(gross + b.gross, refund + b.refund, net + b.net) }
  }

  const ZERO: Bucket := Bucket(0, 0, 0)

  datatype Column = Gross | Refunds | Net

  function Value(p: Payment, c: Column): int {
    match c
    case Gross => if p.amount > 0 then p.amount else 0
    case Refunds => if p.amount < 0 then -p.amount else 0
    case Net => p.amount
  }

  function Total(ps: seq<Payment>, c: Column): int {
    if ps == [] then 0 else Total(ps[..|ps| - 1], c) + Value(ps[|ps| - 1], c)
  }

  // The three aggregates of the summary queries.
  function Aggregate(ps: seq<Payment>): Bucket {
    Bucket(Total(ps, Gross), Total(ps, Refunds), Total(ps, Net))
  }

  // Net is gross less refunds; unlike them it may be negative.
  lemma {:induction false} NetIsDifference(ps: seq<Payment>)
    ensures Total(ps, Net) == Total(ps, Gross) - Total(ps, Refunds)
    ensures Total(ps, Gross) >= 0 && Total(ps, Refunds) >= 0
  {
    if ps != [] {
      NetIsDifference(ps[..|ps| - 1]);
    }
  }

  // The where clause of a query.
  datatype Clause =
    | Selected(since: Date, until: Date, branch: Option<int>)
    | OfTender(tender: PayMethod)
    | OnDay(day: Date)
    | AtBranch(at: int)
    | Not(inner: Clause)
    | Both(one: Clause, other: Clause)
  {
    predicate Picks(p: Payment) {
      match this
      case Selected(since, until, branch) => since <= p.paidAt <= until && (branch.Some? ==> p.branch == branch.value)
      case OfTender(t) => p.tender == t
      case OnDay(day) => p.paidAt == day
      case AtBranch(b) => p.branch == b
      case Not(f) => !f.Picks(p)
      case Both(f, g) => f.Picks(p) && g.Picks(p)
    }
  }

  function Where(ps: seq<Payment>, f: Clause): seq<Payment> {
    if ps == [] then []
    else
      var chosen := Where(ps[..|ps| - 1], f);
      if f.Picks(ps[|ps| - 1]) then chosen + [ps[|ps| - 1]] else chosen
  }

  function InGroup(ps: seq<Payment>, day: Date, t: PayMethod): seq<Payment> {
    Where(ps, Both(OnDay(day), OfTender(t)))
  }

  // ---- filters -----------------------------------------------------------

  lemma {:induction false} WhereMember(ps: seq<Payment>, f: Clause, p: Payment)
    ensures p in Where(ps, f) <==> p in ps && f.Picks(p)
  {
    if ps != [] {
      WhereMember(ps[..|ps| - 1], f, p);
      assert ps == ps[..|ps| - 1] + [ps[|ps| - 1]];
    }
  }

  lemma WhereAppend(ps: seq<Payment>, p: Payment, f: Clause)
    ensures Where(ps + [p], f) == if f.Picks(p) then Where(ps, f) + [p] else Where(ps, f)
  {
    assert (ps + [p])[..|ps|] == ps;
  }

  lemma TotalAppend(ps: seq<Payment>, p: Payment, c: Column)
    ensures Total(ps + [p], c) == Total(ps, c) + Value(p, c)
  {
    assert (ps + [p])[..|ps|] == ps;
  }

  lemma {:induction false} SplitColumn(ps: seq<Payment>, f: Clause, c: Column)
    ensures Total(Where(ps, f), c) + Total(Where(ps, Not(f)), c) == Total(ps, c)
  {
    if ps != [] {
      var rest, last := ps[..|ps| - 1], ps[|ps| - 1];
      SplitColumn(rest, f, c);
      TotalAppend(Where(rest, f), last, c);
      TotalAppend(Where(rest, Not(f)), last, c);
    }
  }

  // Any clause splits a ledger into two parts whose aggregates add up.
  lemma SplitAddsUp(ps: seq<Payment>, f: Clause)
    ensures Aggregate(Where(ps, f)).Plus(Aggregate(Where(ps, Not(f)))) == Aggregate(ps)
  {
    SplitColumn(ps, f, Gross);
    SplitColumn(ps, f, Refunds);
    SplitColumn(ps, f, Net);
  }

  lemma {:induction false} SameFilter(ps: seq<Payment>, f: Clause, g: Clause)
    requires forall k :: 0 <= k < |ps| ==> f.Picks(ps[k]) == g.Picks(ps[k])
    ensures Where(ps, f) == Where(ps, g)
  {
    if ps != [] {
      SameFilter(ps[..|ps| - 1], f, g);
    }
  }

  lemma {:induction false} FilterTwice(ps: seq<Payment>, f: Clause, g: Clause)
    ensures Where(Where(ps, f), g) == Where(ps, Both(f, g))
  {
    if ps != [] {
      var rest, last := ps[..|ps| - 1], ps[|ps| - 1];
      FilterTwice(rest, f, g);
      WhereAppend(Where(rest, f), last, g);
      assert Where(ps, f) == if f.Picks(last) then Where(rest, f) + [last] else Where(rest, f);
    }
  }

  lemma {:induction false} NothingPicked(ps: seq<Payment>, f: Clause)
    requires forall k :: 0 <= k < |ps| ==> !f.Picks(ps[k])
    ensures Where(ps, f) == []
  {
    if ps != [] {
      NothingPicked(ps[..|ps| - 1], f);
    }
  }

  // The cash and card parts of any ledger add up to the whole.
  lemma TendersAddUp(ps: seq<Payment>)
    ensures Aggregate(Where(ps, OfTender(Cash))).Plus(Aggregate(Where(ps, OfTender(Card)))) == Aggregate(ps)
  {
    SplitAddsUp(ps, OfTender(Cash));
    CardIsNotCash(ps);
  }

  lemma CardIsNotCash(ps: seq<Payment>)
    ensures Where(ps, OfTender(Card)) == Where(ps, Not(OfTender(Cash)))
  {
    forall k | 0 <= k < |ps|
      ensures OfTender(Card).Picks(ps[k]) == Not(OfTender(Cash)).Picks(ps[k])
    {
      assert Not(OfTender(Cash)).Picks(ps[k]) == !OfTender(Cash).Picks(ps[k]);
    }
    SameFilter(ps, OfTender(Card), Not(OfTender(Cash)));
  }

  lemma DaySplits(ps: seq<Payment>, day: Date)
    ensures Aggregate(InGroup(ps, day, Cash)).Plus(Aggregate(InGroup(ps, day, Card))) ==
      Aggregate(Where(ps, OnDay(day)))
  {
    TendersAddUp(Where(ps, OnDay(day)));
    FilterTwice(ps, OnDay(day), OfTender(Cash));
    FilterTwice(ps, OnDay(day), OfTender(Card));
  }

  // ---- group by ----------------------------------------------------------

  // One result row of "group by paid_at, method".
  datatype Group = Group(day: Date, tender: PayMethod, bucket: Bucket)

  // "order by paid_at asc, method asc": 'card' sorts before 'cash'.
  predicate Before(a: Group, b: Group) {
    a.day < b.day || (a.day == b.day && a.tender.Card? && b.tender.Cash?)
  }

  predicate InGroupOrder(groups: seq<Group>) {
    forall i, j :: 0 <= i < j < |groups| ==> Before(groups[i], groups[j])
  }

  predicate Holds(groups: seq<Group>, day: Date, t: PayMethod) {
    exists i :: 0 <= i < |groups| && groups[i].day == day && groups[i].tender == t
  }

  function DayGroup(ps: seq<Payment>, day: Date, t: PayMethod): seq<Group> {
    if InGroup(ps, day, t) == [] then [] else [Group(day, t, Aggregate(InGroup(ps, day, t)))]
  }

  // The result rows for the days since..until.
  function GroupRows(ps: seq<Payment>, since: Date, until: Date): (groups: seq<Group>)
    ensures forall i :: 0 <= i < |groups| ==> since <= groups[i].day <= until
    ensures InGroupOrder(groups)
    decreases until - since
  {
    if since > until then []
    else DayGroup(ps, since, Card) + DayGroup(ps, since, Cash) + GroupRows(ps, since + 1, until)
  }

  predicate Exact(ps: seq<Payment>, g: Group) {
    g.bucket == Aggregate(InGroup(ps, g.day, g.tender)) && InGroup(ps, g.day, g.tender) != []
  }

  lemma {:induction false} GroupsExact(ps: seq<Payment>, since: Date, until: Date, i: nat)
    requires i < |GroupRows(ps, since, until)|
    ensures Exact(ps, GroupRows(ps, since, until)[i])
    decreases until - since
  {
    var here := DayGroup(ps, since, Card) + DayGroup(ps, since, Cash);
    if i >= |here| {
      GroupsExact(ps, since + 1, until, i - |here|);
    }
  }

  lemma {:induction false} GroupPresent(ps: seq<Payment>, since: Date, until: Date, p: Payment)
    requires p in ps && since <= p.paidAt <= until
    ensures Holds(GroupRows(ps, since, until), p.paidAt, p.tender)
    decreases until - since
  {
    var groups := GroupRows(ps, since, until);
    WhereMember(ps, Both(OnDay(p.paidAt), OfTender(p.tender)), p);
    var cards, cashes := DayGroup(ps, since, Card), DayGroup(ps, since, Cash);
    if p.paidAt == since {
      var at := if p.tender.Card? then 0 else |cards|;
      assert groups[at] == DayGroup(ps, since, p.tender)[0];
    } else {
      GroupPresent(ps, since + 1, until, p);
      var rest := GroupRows(ps, since + 1, until);
      var i :| 0 <= i < |rest| && rest[i].day == p.paidAt && rest[i].tender == p.tender;
      assert groups[|cards + cashes| + i] == rest[i];
    }
  }

  // ---- the day buckets --------------------------------------------------

  datatype DayBucket = DayBucket(date: Date, total: Bucket, cash: Bucket, card: Bucket)

  predicate Ascending(days: seq<DayBucket>) {
    forall i, j :: 0 <= i < j < |days| ==> days[i].date < days[j].date
  }

  // The bucket of a group among the rows read so far.
  function Read(groups: seq<Group>, day: Date, t: PayMethod): Bucket {
    if groups == [] then ZERO
    else if groups[|groups| - 1].day == day && groups[|groups| - 1].tender == t then groups[|groups| - 1].bucket
    else Read(groups[..|groups| - 1], day, t)
  }

  predicate DayMatches(d: DayBucket, groups: seq<Group>) {
    && d.cash == Read(groups, d.date, Cash)
    && d.card == Read(groups, d.date, Card)
    && d.total == d.cash.Plus(d.card)
  }

  predicate ReadDay(groups: seq<Group>, day: Date) {
    exists k :: 0 <= k < |groups| && groups[k].day == day
  }

  predicate HasDay(days: seq<DayBucket>, day: Date) {
    exists i :: 0 <= i < |days| && days[i].date == day
  }

  lemma {:induction false} ReadFinds(groups: seq<Group>, i: nat)
    requires InGroupOrder(groups) && i < |groups|
    ensures Read(groups, groups[i].day, groups[i].tender) == groups[i].bucket
  {
    var n := |groups| - 1;
    if i < n {
      assert Before(groups[i], groups[n]);
      ReadFinds(groups[..n], i);
    }
  }

  lemma {:induction false} NothingRead(groups: seq<Group>, day: Date, t: PayMethod)
    requires !Holds(groups, day, t)
    ensures Read(groups, day, t) == ZERO
  {
    if groups != [] {
      var n := |groups| - 1;
      assert forall i :: 0 <= i < n ==> groups[..n][i] == groups[i];
      NothingRead(groups[..n], day, t);
    }
  }

  // The index of the day buckets, as the loop keeps it.
  predicate Indexed(days: seq<DayBucket>, dayIndex: map<Date, int>) {
    && (forall i :: 0 <= i < |days| ==> days[i].date in dayIndex && dayIndex[days[i].date] == i)
    && (forall d :: d in dayIndex ==> 0 <= dayIndex[d] < |days| && days[dayIndex[d]].date == d)
  }

  // Row k of the ordered result: its group has not been read before, and no day
  // already read is later than its day.
  lemma NextRow(groups: seq<Group>, k: nat)
    requires k < |groups| && InGroupOrder(groups)
    ensures Read(groups[..k], groups[k].day, groups[k].tender) == ZERO
    ensures (forall l :: 0 <= l < k ==> groups[l].day != groups[k].day) ==>
      Read(groups[..k], groups[k].day, Cash) == ZERO && Read(groups[..k], groups[k].day, Card) == ZERO
    ensures forall l :: 0 <= l < k ==> groups[l].day <= groups[k].day
    ensures groups[..k + 1][..k] == groups[..k]
  {
    forall l | 0 <= l < k
      ensures Before(groups[..k][l], groups[k])
    {
      assert Before(groups[l], groups[k]);
    }
    NothingRead(groups[..k], groups[k].day, groups[k].tender);
    if forall l :: 0 <= l < k ==> groups[l].day != groups[k].day {
      NothingRead(groups[..k], groups[k].day, Cash);
      NothingRead(groups[..k], groups[k].day, Card);
    }
  }

  function AddToDay(d: DayBucket, g: Group): DayBucket {
    var grown := d.(total := d.total.Plus(g.bucket));
    match g.tender
    case Cash => grown.(cash := g.bucket)
    case Card => grown.(card := g.bucket)
  }

  // What the loop keeps: the day buckets built from the rows read so far.
  predicate Folded(groups: seq<Group>, days: seq<DayBucket>, dayIndex: map<Date, int>) {
    && Ascending(days)
    && Indexed(days, dayIndex)
    && (forall i :: 0 <= i < |days| ==> DayMatches(days[i], groups) && ReadDay(groups, days[i].date))
    && (forall l :: 0 <= l < |groups| ==> groups[l].day in dayIndex)
  }

  lemma ReadNext(groups: seq<Group>, k: nat, day: Date, t: PayMethod)
    requires k < |groups|
    ensures Read(groups[..k + 1], day, t) ==
      if groups[k].day == day && groups[k].tender == t then groups[k].bucket else Read(groups[..k], day, t)
  {
    assert groups[..k + 1][..k] == groups[..k];
  }

  lemma MatchesNext(groups: seq<Group>, k: nat, d: DayBucket)
    requires k < |groups| && InGroupOrder(groups) && DayMatches(d, groups[..k])
    ensures d.date != groups[k].day ==> DayMatches(d, groups[..k + 1])
    ensures d.date == groups[k].day ==> DayMatches(AddToDay(d, groups[k]), groups[..k + 1])
  {
    NextRow(groups, k);
    ReadNext(groups, k, d.date, Cash);
    ReadNext(groups, k, d.date, Card);
    if d.date == groups[k].day {
      match groups[k].tender
      case Cash => PlusFirst(d.cash, d.card, groups[k].bucket);
      case Card => PlusSecond(d.cash, d.card, groups[k].bucket);
    }
  }

  lemma PlusFirst(a: Bucket, b: Bucket, more: Bucket)
    requires a == ZERO
    ensures a.Plus(b).Plus(more) == more.Plus(b)
  {
  }

  lemma PlusSecond(a: Bucket, b: Bucket, more: Bucket)
    requires b == ZERO
    ensures a.Plus(b).Plus(more) == a.Plus(more)
  {
  }

  lemma ReadDayGrows(groups: seq<Group>, k: nat, day: Date)
    requires k < |groups|
    ensures ReadDay(groups[..k + 1], day) <==> ReadDay(groups[..k], day) || groups[k].day == day
  {
    var more := groups[..k + 1];
    assert more[k] == groups[k];
    if ReadDay(groups[..k], day) {
      var l :| 0 <= l < k && groups[..k][l].day == day;
      assert more[l].day == day;
    }
    if ReadDay(more, day) && groups[k].day != day {
      var l :| 0 <= l < k + 1 && more[l].day == day;
      assert groups[..k][l].day == day;
    }
  }

  // Row k completes the day bucket at position idx.
  lemma FoldOld(groups: seq<Group>, k: nat, days: seq<DayBucket>, dayIndex: map<Date, int>)
    requires k < |groups| && InGroupOrder(groups) && Folded(groups[..k], days, dayIndex)
    requires groups[k].day in dayIndex
    ensures var idx := dayIndex[groups[k].day];
      0 <= idx < |days| && Folded(groups[..k + 1], days[idx := AddToDay(days[idx], groups[k])], dayIndex)
  {
    var idx := dayIndex[groups[k].day];
    var after := days[idx := AddToDay(days[idx], groups[k])];
    forall i | 0 <= i < |days|
      ensures DayMatches(after[i], groups[..k + 1]) && ReadDay(groups[..k + 1], after[i].date)
    {
      assert i != idx ==> days[i].date != days[idx].date;
      MatchesNext(groups, k, days[i]);
      ReadDayGrows(groups, k, days[i].date);
    }
    var more := groups[..k + 1];
    forall l | 0 <= l < |more|
      ensures more[l].day in dayIndex
    {
      if l < k { assert groups[..k][l] == groups[l]; }
    }
  }

  // Row k opens a new day, later than every day before it.
  lemma FoldNew(groups: seq<Group>, k: nat, days: seq<DayBucket>, dayIndex: map<Date, int>)
    requires k < |groups| && InGroupOrder(groups) && Folded(groups[..k], days, dayIndex)
    requires groups[k].day !in dayIndex
    ensures Folded(groups[..k + 1], days + [AddToDay(DayBucket(groups[k].day, ZERO, ZERO, ZERO), groups[k])],
                   dayIndex[groups[k].day := |days|])
  {
    var g := groups[k];
    var blank := DayBucket(g.day, ZERO, ZERO, ZERO);
    var after := days + [AddToDay(blank, g)];
    NextRow(groups, k);
    forall l | 0 <= l < k
      ensures groups[l].day < g.day
    {
      assert groups[..k][l].day in dayIndex;
    }
    forall i | 0 <= i < |after|
      ensures DayMatches(after[i], groups[..k + 1]) && ReadDay(groups[..k + 1], after[i].date)
      ensures i < |days| ==> after[i].date < g.day
    {
      ReadDayGrows(groups, k, after[i].date);
      if i < |days| {
        assert ReadDay(groups[..k], days[i].date);
        MatchesNext(groups, k, days[i]);
      } else {
        MatchesNext(groups, k, blank);
      }
    }
    var more := groups[..k + 1];
    forall l | 0 <= l < |more|
      ensures more[l].day in dayIndex[g.day := |days|]
    {
      if l < k { assert groups[..k][l].day in dayIndex; }
    }
  }

  // Folding the ordered group rows into day buckets: a row either opens a new day
  // at the end of the list or completes the day it finds through the index.
  method FoldDays(groups: seq<Group>) returns (days: seq<DayBucket>)
    requires InGroupOrder(groups)
    ensures Ascending(days)
    ensures forall i :: 0 <= i < |days| ==> DayMatches(days[i], groups) && ReadDay(groups, days[i].date)
    ensures forall k :: 0 <= k < |groups| ==> HasDay(days, groups[k].day)
  {
    days := [];
    var dayIndex: map<Date, int> := map[];
    var k := 0;
    while k < |groups|
      invariant k <= |groups|
      invariant Folded(groups[..k], days, dayIndex)
    {
      var g := groups[k];
      if g.day !in dayIndex {
        FoldNew(groups, k, days, dayIndex);
        dayIndex := dayIndex[g.day := |days|];
        days := days + [AddToDay(DayBucket(g.day, ZERO, ZERO, ZERO), g)];
      } else {
        FoldOld(groups, k, days, dayIndex);
        var idx := dayIndex[g.day];
        days := days[idx := AddToDay(days[idx], g)];
      }
      k := k + 1;
    }
    assert groups[..k] == groups;
    FoldedHasDays(groups, days, dayIndex);
  }

  lemma FoldedHasDays(groups: seq<Group>, days: seq<DayBucket>, dayIndex: map<Date, int>)
    requires Folded(groups, days, dayIndex)
    ensures forall k :: 0 <= k < |groups| ==> HasDay(days, groups[k].day)
  {
    forall l | 0 <= l < |groups|
      ensures HasDay(days, groups[l].day)
    {
      assert days[dayIndex[groups[l].day]].date == groups[l].day;
    }
  }

  // ---- the summary -------------------------------------------------------

  datatype Summary = Summary(total: Bucket, cash: Bucket, card: Bucket, byDay: seq<DayBucket>)

  // A day bucket holds the aggregates of the selected payments of that day.
  predicate DayExact(ps: seq<Payment>, d: DayBucket) {
    && d.total == Aggregate(Where(ps, OnDay(d.date)))
    && d.cash == Aggregate(InGroup(ps, d.date, Cash))
    && d.card == Aggregate(InGroup(ps, d.date, Card))
    && Where(ps, OnDay(d.date)) != []
  }

  predicate ExactDays(ps: seq<Payment>, days: seq<DayBucket>) {
    && Ascending(days)
    && (forall i :: 0 <= i < |days| ==> DayExact(ps, days[i]))
    && (forall k :: 0 <= k < |ps| ==> HasDay(days, ps[k].paidAt))
  }

  // Totals, methods and days are the aggregates of the payments, with one bucket for
  // every day that has a payment and for no other.
  predicate SummaryOf(ps: seq<Payment>, s: Summary) {
    && s.total == Aggregate(ps)
    && s.cash == Aggregate(Where(ps, OfTender(Cash)))
    && s.card == Aggregate(Where(ps, OfTender(Card)))
    && ExactDays(ps, s.byDay)
  }

  method SalesSummary(ledger: seq<Payment>, since: Date, until: Date, branch: Option<int>) returns (s: Summary)
    ensures SummaryOf(Where(ledger, Selected(since, until, branch)), s)
    ensures s.total == s.cash.Plus(s.card) == SumOfDays(s.byDay)
    ensures forall i :: 0 <= i < |s.byDay| ==> s.byDay[i].total == s.byDay[i].cash.Plus(s.byDay[i].card)
    ensures s.total.net == s.total.gross - s.total.refund
  {
    var ps := Where(ledger, Selected(since, until, branch));
    var groups := GroupRows(ps, since, until);
    var days := FoldDays(groups);
    s := Summary(Aggregate(ps), Aggregate(Where(ps, OfTender(Cash))), Aggregate(Where(ps, OfTender(Card))), days);
    EveryGroupHolds(ledger, since, until, branch);
    DaysAreExact(ps, since, until, groups, days);
    TendersAddUp(ps);
    NetIsDifference(ps);
    DaysAddUp(ps, days);
    forall i | 0 <= i < |days|
      ensures days[i].total == days[i].cash.Plus(days[i].card)
    {
      assert DayMatches(days[i], groups);
    }
  }

  // What one more payment adds to a summary: its amount to gross, its absolute value to
  // refund when negative, and nothing if it is outside the days or the branch.
  lemma SummaryGrows(ledger: seq<Payment>, p: Payment, since: Date, until: Date, branch: Option<int>)
    ensures var before := Where(ledger, Selected(since, until, branch));
            var after := Where(ledger + [p], Selected(since, until, branch));
            var share := if p.amount >= 0 then Bucket(p.amount, 0, p.amount) else Bucket(0, -p.amount, p.amount);
            if since <= p.paidAt && p.paidAt <= until && branch in {None, Some(p.branch)}
            then
              && Aggregate(after) == Aggregate(before).Plus(share)
              && Aggregate(Where(after, OfTender(p.tender))) == Aggregate(Where(before, OfTender(p.tender))).Plus(share)
              && forall t :: t != p.tender ==> Where(after, OfTender(t)) == Where(before, OfTender(t))
            else after == before
  {
    var sel := Selected(since, until, branch);
    WhereAppend(ledger, p, sel);
    if sel.Picks(p) {
      var before := Where(ledger, sel);
      Grown(before, p);
      WhereAppend(before, p, OfTender(p.tender));
      Grown(Where(before, OfTender(p.tender)), p);
      forall t | t != p.tender
        ensures Where(before + [p], OfTender(t)) == Where(before, OfTender(t))
      {
        WhereAppend(before, p, OfTender(t));
      }
    }
  }

  lemma Grown(ps: seq<Payment>, p: Payment)
    ensures Aggregate(ps + [p]) ==
      Aggregate(ps).Plus(if p.amount >= 0 then Bucket(p.amount, 0, p.amount) else Bucket(0, -p.amount, p.amount))
  {
    TotalAppend(ps, p, Gross);
    TotalAppend(ps, p, Refunds);
    TotalAppend(ps, p, Net);
  }

  lemma EveryGroupHolds(ledger: seq<Payment>, since: Date, until: Date, branch: Option<int>)
    ensures AllHeld(Where(ledger, Selected(since, until, branch)), since, until)
  {
    var ps := Where(ledger, Selected(since, until, branch));
    forall k | 0 <= k < |ps|
      ensures Holds(GroupRows(ps, since, until), ps[k].paidAt, ps[k].tender)
    {
      assert ps[k] in ps;
      WhereMember(ledger, Selected(since, until, branch), ps[k]);
      GroupPresent(ps, since, until, ps[k]);
    }
  }

  // Every payment is in one of the result rows.
  predicate AllHeld(ps: seq<Payment>, since: Date, until: Date) {
    forall k :: 0 <= k < |ps| ==> Holds(GroupRows(ps, since, until), ps[k].paidAt, ps[k].tender)
  }

  // The day buckets folded from the result rows are those of the payments.
  lemma DaysAreExact(ps: seq<Payment>, since: Date, until: Date, groups: seq<Group>, days: seq<DayBucket>)
    requires AllHeld(ps, since, until) && Ascending(days) && groups == GroupRows(ps, since, until)
    requires forall i :: 0 <= i < |days| ==> DayMatches(days[i], groups) && ReadDay(groups, days[i].date)
    requires forall k :: 0 <= k < |groups| ==> HasDay(days, groups[k].day)
    ensures ExactDays(ps, days) && Totalled(ps, days)
  {
    forall k | 0 <= k < |ps|
      ensures HasDay(days, ps[k].paidAt)
    {
      assert Holds(groups, ps[k].paidAt, ps[k].tender);
      var i :| 0 <= i < |groups| && groups[i].day == ps[k].paidAt;
      assert HasDay(days, groups[i].day);
    }
    forall i | 0 <= i < |days|
      ensures DayExact(ps, days[i])
    {
      DayIsExact(ps, since, until, days[i]);
    }
  }

  lemma GroupOrNothing(ps: seq<Payment>, since: Date, until: Date, day: Date, t: PayMethod)
    requires AllHeld(ps, since, until)
    ensures Read(GroupRows(ps, since, until), day, t) == Aggregate(InGroup(ps, day, t))
  {
    var groups := GroupRows(ps, since, until);
    if Holds(groups, day, t) {
      var i :| 0 <= i < |groups| && groups[i].day == day && groups[i].tender == t;
      ReadFinds(groups, i);
      GroupsExact(ps, since, until, i);
    } else {
      NothingRead(groups, day, t);
      NothingPicked(ps, Both(OnDay(day), OfTender(t)));
    }
  }

  lemma DayIsExact(ps: seq<Payment>, since: Date, until: Date, d: DayBucket)
    requires AllHeld(ps, since, until)
    requires DayMatches(d, GroupRows(ps, since, until)) && ReadDay(GroupRows(ps, since, until), d.date)
    ensures DayExact(ps, d)
  {
    GroupOrNothing(ps, since, until, d.date, Cash);
    GroupOrNothing(ps, since, until, d.date, Card);
    DaySplits(ps, d.date);
    DayNotEmpty(ps, since, until, d.date);
  }

  lemma DayNotEmpty(ps: seq<Payment>, since: Date, until: Date, day: Date)
    requires ReadDay(GroupRows(ps, since, until), day)
    ensures Where(ps, OnDay(day)) != []
  {
    var groups := GroupRows(ps, since, until);
    var k :| 0 <= k < |groups| && groups[k].day == day;
    GroupsExact(ps, since, until, k);
    FilterTwice(ps, OnDay(day), OfTender(groups[k].tender));
  }

  function SumOfDays(days: seq<DayBucket>): Bucket {
    if days == [] then ZERO else SumOfDays(days[..|days| - 1]).Plus(days[|days| - 1].total)
  }

  lemma {:induction false} OtherDay(ps: seq<Payment>, last: Date, day: Date)
    requires day != last
    ensures Where(Where(ps, Not(OnDay(last))), OnDay(day)) == Where(ps, OnDay(day))
  {
    FilterTwice(ps, Not(OnDay(last)), OnDay(day));
    forall k | 0 <= k < |ps|
      ensures Both(Not(OnDay(last)), OnDay(day)).Picks(ps[k]) == OnDay(day).Picks(ps[k])
    {
      assert Not(OnDay(last)).Picks(ps[k]) == !OnDay(last).Picks(ps[k]);
    }
    SameFilter(ps, Both(Not(OnDay(last)), OnDay(day)), OnDay(day));
  }

  lemma PlusCommutes(a: Bucket, b: Bucket)
    ensures a.Plus(b) == b.Plus(a)
  {
  }

  function DayTotal(ps: seq<Payment>, day: Date): Bucket { Aggregate(Where(ps, OnDay(day))) }

  predicate Totalled(ps: seq<Payment>, days: seq<DayBucket>) {
    && Ascending(days)
    && (forall i :: 0 <= i < |days| ==> days[i].total == DayTotal(ps, days[i].date))
    && (forall k :: 0 <= k < |ps| ==> HasDay(days, ps[k].paidAt))
  }

  lemma DropLastDay(ps: seq<Payment>, days: seq<DayBucket>)
    requires Totalled(ps, days) && days != []
    ensures var n := |days| - 1; Totalled(Where(ps, Not(OnDay(days[n].date))), days[..n])
  {
    var n := |days| - 1;
    var last := days[n].date;
    var rest := Where(ps, Not(OnDay(last)));
    forall i | 0 <= i < n
      ensures days[i].total == DayTotal(rest, days[i].date)
    {
      assert days[i].date < days[n].date;
      OtherDay(ps, last, days[i].date);
    }
    forall k | 0 <= k < |rest|
      ensures HasDay(days[..n], rest[k].paidAt)
    {
      KeptHasDay(ps, days, k);
    }
  }

  lemma KeptHasDay(ps: seq<Payment>, days: seq<DayBucket>, k: nat)
    requires days != [] && k < |Where(ps, Not(OnDay(days[|days| - 1].date)))|
    requires forall l :: 0 <= l < |ps| ==> HasDay(days, ps[l].paidAt)
    ensures HasDay(days[..|days| - 1], Where(ps, Not(OnDay(days[|days| - 1].date)))[k].paidAt)
  {
    var n := |days| - 1;
    var p := Where(ps, Not(OnDay(days[n].date)))[k];
    WhereMember(ps, Not(OnDay(days[n].date)), p);
    var l :| 0 <= l < |ps| && ps[l] == p;
    assert HasDay(days, ps[l].paidAt);
    var i :| 0 <= i < |days| && days[i].date == p.paidAt;
    assert days[..n][i] == days[i];
  }

  // The day buckets of a summary add up to its totals, in all three columns.
  lemma {:induction false} DaysAddUp(ps: seq<Payment>, days: seq<DayBucket>)
    requires Totalled(ps, days)
    ensures SumOfDays(days) == Aggregate(ps)
    decreases |days|
  {
    if days == [] {
      assert ps != [] ==> HasDay(days, ps[0].paidAt);
    } else {
      var n := |days| - 1;
      var rest := Where(ps, Not(OnDay(days[n].date)));
      DropLastDay(ps, days);
      DaysAddUp(rest, days[..n]);
      SplitAddsUp(ps, OnDay(days[n].date));
      PlusCommutes(Aggregate(rest), days[n].total);
    }
  }

  // ---- the ledger balances -----------------------------------------------

  // What the till keeps of a membership sold at a price.
  function KeptAmount(m: Membership, price: Payment): int { if m.status.Refunded? then 0 else price.amount }

  // The prices of the memberships that were not refunded, among the first n.
  function KeptTotal(rows: seq<Membership>, sold: seq<Payment>, n: nat): int
    requires n <= |rows| == |sold|
  {
    if n == 0 then 0 else KeptTotal(rows, sold, n - 1) + KeptAmount(rows[n - 1], sold[n - 1])
  }

  function NetUpTo(payments: seq<Payment>, n: nat): int {
    if n == 0 then 0 else NetUpTo(payments, n - 1) + Total(PaymentsOf(payments, n - 1), Net)
  }

  // The payments of a standing membership: the one asked for, and its mirror once refunded.
  lemma PaidIs(db: Db, sold: seq<Payment>, i: int)
    requires AllStand(db) && Priced(db, sold) && 0 <= i < |db.rows|
    ensures var paid := PaymentsOf(db.payments, i);
      if db.rows[i].status.Refunded? then |paid| == 2 && paid == [sold[i], Mirror(sold[i], paid[1].paidAt)]
      else paid == [sold[i]]
  {
    assert RowStands(db, i) && FirstPaid(db.payments, i, sold[i]);
  }

  // The payments of a standing membership sum to the amount its grant asked for, and to
  // zero once it is refunded; and so they do inside every branch and payment method.
  lemma MembershipBalances(db: Db, sold: seq<Payment>, i: int, branch: int, t: PayMethod)
    requires AllStand(db) && Priced(db, sold) && 0 <= i < |db.rows|
    ensures var paid, f := PaymentsOf(db.payments, i), Both(AtBranch(branch), OfTender(t));
      && Total(paid, Net) == KeptAmount(db.rows[i], sold[i])
      && Total(Where(paid, f), Net) == if f.Picks(sold[i]) then KeptAmount(db.rows[i], sold[i]) else 0
  {
    var paid, f := PaymentsOf(db.payments, i), Both(AtBranch(branch), OfTender(t));
    PaidIs(db, sold, i);
    if db.rows[i].status.Refunded? {
      TwoPayments(sold[i], paid[1].paidAt, f);
    } else {
      OnePayment(sold[i], f);
    }
  }

  lemma OnePayment(p: Payment, f: Clause)
    ensures Total([p], Net) == p.amount && Where([p], f) == if f.Picks(p) then [p] else []
  {
    assert [] + [p] == [p];
    TotalAppend([], p, Net);
    WhereAppend([], p, f);
  }

  // A payment and its mirror cancel, and a clause on branch and method takes both or none.
  lemma TwoPayments(p: Payment, day: Date, f: Clause)
    requires f.Picks(Mirror(p, day)) == f.Picks(p)
    ensures Total([p, Mirror(p, day)], Net) == 0 && Total(Where([p, Mirror(p, day)], f), Net) == 0
  {
    assert [p] + [Mirror(p, day)] == [p, Mirror(p, day)];
    OnePayment(p, f);
    TotalAppend([p], Mirror(p, day), Net);
    WhereAppend([p], Mirror(p, day), f);
  }

  lemma {:induction false} NetByMembership(payments: seq<Payment>, n: nat)
    requires forall k :: 0 <= k < |payments| ==> 0 <= payments[k].membership < n
    ensures NetUpTo(payments, n) == Total(payments, Net)
  {
    if payments == [] {
      NetOfNothing(n);
    } else {
      var rest, last := payments[..|payments| - 1], payments[|payments| - 1];
      NetByMembership(rest, n);
      OneMorePayment(rest, last, n);
      assert payments == rest + [last];
    }
  }

  lemma {:induction false} NetOfNothing(n: nat)
    ensures NetUpTo([], n) == 0
  {
    if n > 0 { NetOfNothing(n - 1); }
  }

  lemma {:induction false} OneMorePayment(rest: seq<Payment>, last: Payment, n: nat)
    ensures NetUpTo(rest + [last], n) == NetUpTo(rest, n) + (if 0 <= last.membership < n then last.amount else 0)
  {
    if n > 0 {
      OneMorePayment(rest, last, n - 1);
      PaymentsAppend(rest, last, n - 1);
      TotalAppend(PaymentsOf(rest, n - 1), last, Net);
    }
  }

  lemma {:induction false} KeptIsNet(db: Db, sold: seq<Payment>, n: nat)
    requires AllStand(db) && Priced(db, sold) && n <= |db.rows|
    ensures KeptTotal(db.rows, sold, n) == NetUpTo(db.payments, n)
  {
    if n > 0 {
      KeptIsNet(db, sold, n - 1);
      MembershipBalances(db, sold, n - 1, 0, Cash);
    }
  }

  // The net of all payments ever made is the sum of the amounts the grants asked for,
  // over the memberships that were not refunded.
  lemma AllTimeNet(db: Db, sold: seq<Payment>)
    requires AllStand(db) && Priced(db, sold)
    ensures Total(db.payments, Net) == KeptTotal(db.rows, sold, |db.rows|)
  {
    NetByMembership(db.payments, |db.rows|);
    KeptIsNet(db, sold, |db.rows|);
  }
}
