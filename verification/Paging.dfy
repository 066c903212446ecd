// Paging.dfy: the keyset-paginated lists of members and check-ins.
module Paging {
  import opened Prelude

  // What the two lists look at in a row; time is in microseconds.
  datatype Row = Row(id: int, branch: int, time: int, deleted: bool)

  datatype Cursor = Cursor(time: int, id: int)

  // The two list queries: a branch admin's scope goes before a global admin's filter.
  datatype Query =
    | Members(scope: Option<int>, branch: Option<int>)
    | CheckIns(scope: Option<int>, branch: Option<int>, from: int, upto: int)

  const KST_OFFSET := 9 * 3_600_000_000
  const DAY_LENGTH := 86_400_000_000

  function KstDay(time: int): int { (time + KST_OFFSET) / DAY_LENGTH }

  predicate BranchMatches(q: Query, r: Row) {
    match q.scope
    case Some(b) => r.branch == b
    case None =>
      match q.branch
      case Some(b) => r.branch == b
      case None => true
  }

  predicate Matches(q: Query, r: Row) {
    && BranchMatches(q, r)
    && (q.Members? ==> !r.deleted)
    && (q.CheckIns? ==> q.from <= KstDay(r.time) <= q.upto)
  }

  // The row comparison (time, id) < cursor.
  predicate Below(c: Cursor, r: Row) {
    r.time < c.time || (r.time == c.time && r.id < c.id)
  }

  function KeyOf(r: Row): Cursor { Cursor(r.time, r.id) }

  predicate Past(cursor: Option<Cursor>, r: Row) { cursor.Some? ==> Below(cursor.value, r) }

  // ids are primary keys.
  ghost predicate Table(rows: set<Row>) {
    forall a, b :: a in rows && b in rows && a.id == b.id ==> a == b
  }

  ghost function Selected(table: set<Row>, q: Query, cursor: Option<Cursor>): set<Row> {
    set r | r in table && Matches(q, r) && Past(cursor, r)
  }

  // ---- order by time desc, id desc ---------------------------------------

  ghost predicate IsFirst(r: Row, rows: set<Row>) {
    r in rows && forall o :: o in rows && o != r ==> Below(KeyOf(r), o)
  }

  lemma {:induction false} FirstExists(rows: set<Row>)
    requires rows != {} && Table(rows)
    ensures exists r :: IsFirst(r, rows)
    decreases |rows|
  {
    var x :| x in rows;
    if rows == {x} {
      assert IsFirst(x, rows);
    } else {
      FirstExists(rows - {x});
      var y :| IsFirst(y, rows - {x});
      assert x.id != y.id;
      if Below(KeyOf(x), y) {
        forall o | o in rows && o != x
          ensures Below(KeyOf(x), o)
        {
          if o != y { assert o in rows - {x}; }
        }
        assert IsFirst(x, rows);
      } else {
        assert Below(KeyOf(y), x);
        assert IsFirst(y, rows);
      }
    }
  }

  ghost function First(rows: set<Row>): (r: Row)
    requires rows != {} && Table(rows)
    ensures IsFirst(r, rows)
  {
    FirstExists(rows);
    var r :| IsFirst(r, rows);
    r
  }

  ghost function OrderBy(rows: set<Row>): seq<Row>
    requires Table(rows)
    decreases |rows|
  {
    if rows == {} then [] else [First(rows)] + OrderBy(rows - {First(rows)})
  }

  ghost predicate Descending(s: seq<Row>) {
    forall i, j :: 0 <= i < j < |s| ==> Below(KeyOf(s[i]), s[j])
  }

  // The ordered rows are exactly the rows, each once, newest first.
  lemma {:induction false} OrderedRows(rows: set<Row>)
    requires Table(rows)
    ensures forall r :: r in OrderBy(rows) <==> r in rows
    ensures |OrderBy(rows)| == |rows|
    ensures Descending(OrderBy(rows))
    decreases |rows|
  {
    if rows != {} {
      var f := First(rows);
      OrderedRows(rows - {f});
      var rest := OrderBy(rows - {f});
      assert forall j :: 0 <= j < |rest| ==> rest[j] in rest;
    }
  }

  ghost function After(rows: set<Row>, x: Row): set<Row> { set r | r in rows && Below(KeyOf(x), r) }

  lemma AfterFirst(rows: set<Row>)
    requires Table(rows) && rows != {}
    ensures After(rows, First(rows)) == rows - {First(rows)}
  {
  }

  lemma AfterLater(rows: set<Row>, x: Row)
    requires Table(rows) && rows != {} && x in rows - {First(rows)}
    ensures After(rows, x) == After(rows - {First(rows)}, x)
  {
  }

  // What sorts after the k-th row is what is left of the ordered rows.
  lemma {:induction false} OrderedSuffix(rows: set<Row>, k: nat)
    requires Table(rows) && k < |OrderBy(rows)|
    ensures OrderBy(rows)[k] in rows
    ensures OrderBy(After(rows, OrderBy(rows)[k])) == OrderBy(rows)[k + 1..]
    decreases k
  {
    var rest := rows - {First(rows)};
    if k == 0 {
      AfterFirst(rows);
    } else {
      OrderedSuffix(rest, k - 1);
      AfterLater(rows, OrderBy(rest)[k - 1]);
    }
  }

  // ---- one page ----------------------------------------------------------

  // A limit that is not positive falls back to 20.
  function PageSize(limit: int): nat { if limit <= 0 then 20 else limit }

  ghost function Take(s: seq<Row>, n: nat): seq<Row> { if |s| <= n then s else s[..n] }

  ghost function PageRows(table: set<Row>, q: Query, cursor: Option<Cursor>, limit: int): (page: seq<Row>)
    requires Table(table)
    ensures |page| <= PageSize(limit)
  {
    Take(OrderBy(Selected(table, q, cursor)), PageSize(limit))
  }

  ghost function NextCursor(table: set<Row>, q: Query, cursor: Option<Cursor>, limit: int): Option<Cursor>
    requires Table(table)
  {
    var ordered := OrderBy(Selected(table, q, cursor));
    if |ordered| <= PageSize(limit) then None else Some(KeyOf(ordered[PageSize(limit) - 1]))
  }

  // The list functions: the database returns at most one row more than the page holds.
  method ListRows(ghost table: set<Row>, q: Query, cursor: Option<Cursor>, limit: int, answer: seq<Row>)
    returns (page: seq<Row>, next: Option<Cursor>)
    requires Table(table)
    requires answer == Take(OrderBy(Selected(table, q, cursor)), PageSize(limit) + 1)
    ensures page == PageRows(table, q, cursor, limit)
    ensures next == NextCursor(table, q, cursor, limit)
  {
    var size := if limit <= 0 then 20 else limit;
    page := [];
    var i := 0;
    while i < |answer|
      invariant i <= |answer| && page == answer[..i]
    {
      page := page + [answer[i]];
      i := i + 1;
    }
    next := None;
    if |page| > size {
      var last := page[size - 1];
      next := Some(Cursor(last.time, last.id));
      page := page[..size];
    }
  }

  // The rows the next cursor selects are the rows the page left over.
  lemma PageSplits(table: set<Row>, q: Query, cursor: Option<Cursor>, limit: int)
    requires Table(table)
    ensures var ordered := OrderBy(Selected(table, q, cursor));
            var next := NextCursor(table, q, cursor, limit);
            && (next.None? ==> PageRows(table, q, cursor, limit) == ordered)
            && (next.Some? ==> |ordered| > PageSize(limit) == |PageRows(table, q, cursor, limit)|)
            && (next.Some? ==> ordered == PageRows(table, q, cursor, limit) + OrderBy(Selected(table, q, next)))
  {
    var rows := Selected(table, q, cursor);
    var next := NextCursor(table, q, cursor, limit);
    if next.Some? {
      OrderedSuffix(rows, PageSize(limit) - 1);
      SelectedAfter(table, q, cursor, OrderBy(rows)[PageSize(limit) - 1]);
    }
  }

  lemma SelectedAfter(table: set<Row>, q: Query, cursor: Option<Cursor>, x: Row)
    requires x in Selected(table, q, cursor)
    ensures Selected(table, q, Some(KeyOf(x))) == After(Selected(table, q, cursor), x)
  {
  }

  // ---- following the cursors ---------------------------------------------

  // A reader that follows next cursors, reading the k-th page from the k-th table.
  ghost function Walk(tables: seq<set<Row>>, q: Query, cursor: Option<Cursor>, limit: int): seq<seq<Row>>
    requires forall k :: 0 <= k < |tables| ==> Table(tables[k])
  {
    if tables == [] then []
    else
      var next := NextCursor(tables[0], q, cursor, limit);
      [PageRows(tables[0], q, cursor, limit)] + (if next.None? then [] else Walk(tables[1..], q, next, limit))
  }

  // Between pages, no row below the cursor just handed out appears, goes or changes.
  ghost predicate QuietBelow(tables: seq<set<Row>>, q: Query, cursor: Option<Cursor>, limit: int)
    requires forall k :: 0 <= k < |tables| ==> Table(tables[k])
  {
    |tables| > 1 ==>
      var next := NextCursor(tables[0], q, cursor, limit);
      next.Some? ==>
        Selected(tables[1], q, next) == Selected(tables[0], q, next) && QuietBelow(tables[1..], q, next, limit)
  }

  function Concat(pages: seq<seq<Row>>): seq<Row> {
    if pages == [] then [] else pages[0] + Concat(pages[1..])
  }

  function PageCount(n: nat, size: nat): nat
    requires size > 0
  {
    if n <= size then 1 else PageCount(n - size, size) + 1
  }

  // Every row present when the walk starts is returned, once and in order, and nothing
  // else; the walk is over after ceil(n / size) pages (one for an empty list).
  lemma {:induction false} WalkReturnsAll(tables: seq<set<Row>>, q: Query, cursor: Option<Cursor>, limit: int)
    requires forall k :: 0 <= k < |tables| ==> Table(tables[k])
    requires tables != [] && QuietBelow(tables, q, cursor, limit)
    requires |tables| >= PageCount(|OrderBy(Selected(tables[0], q, cursor))|, PageSize(limit))
    ensures Concat(Walk(tables, q, cursor, limit)) == OrderBy(Selected(tables[0], q, cursor))
    ensures |Walk(tables, q, cursor, limit)| == PageCount(|OrderBy(Selected(tables[0], q, cursor))|, PageSize(limit))
    decreases |tables|
  {
    PageSplits(tables[0], q, cursor, limit);
    var next := NextCursor(tables[0], q, cursor, limit);
    var page := PageRows(tables[0], q, cursor, limit);
    if next.None? {
      assert Concat([page]) == page;
    } else {
      var rest := tables[1..];
      assert Selected(rest[0], q, next) == Selected(tables[0], q, next);
      WalkReturnsAll(rest, q, next, limit);
      assert Walk(tables, q, cursor, limit)[1..] == Walk(rest, q, next, limit);
    }
  }

  // Rows arriving above the cursor leave what is below it alone.
  lemma ArrivalsAbove(table: set<Row>, arrivals: set<Row>, q: Query, cursor: Option<Cursor>)
    requires forall r :: r in arrivals ==> !Past(cursor, r)
    ensures Selected(table + arrivals, q, cursor) == Selected(table, q, cursor)
  {
  }

  // Each later table is the one before it and rows above the cursor just handed out.
  ghost predicate OnlyArrivals(tables: seq<set<Row>>, q: Query, cursor: Option<Cursor>, limit: int)
    requires forall k :: 0 <= k < |tables| ==> Table(tables[k])
  {
    |tables| > 1 ==>
      var next := NextCursor(tables[0], q, cursor, limit);
      next.Some? ==>
        && tables[0] <= tables[1]
        && (forall r :: r in tables[1] - tables[0] ==> !Past(next, r))
        && OnlyArrivals(tables[1..], q, next, limit)
  }

  lemma {:induction false} ArrivalsAreQuiet(tables: seq<set<Row>>, q: Query, cursor: Option<Cursor>, limit: int)
    requires forall k :: 0 <= k < |tables| ==> Table(tables[k])
    requires OnlyArrivals(tables, q, cursor, limit)
    ensures QuietBelow(tables, q, cursor, limit)
    decreases |tables|
  {
    if |tables| > 1 {
      var next := NextCursor(tables[0], q, cursor, limit);
      if next.Some? {
        ArrivalsAbove(tables[0], tables[1] - tables[0], q, next);
        assert tables[0] + (tables[1] - tables[0]) == tables[1];
        ArrivalsAreQuiet(tables[1..], q, next, limit);
      }
    }
  }

  // What the reader asked for, told by the row: of the admin's branch, or of the branch
  // asked for if the admin has none; members who are not deleted; check-ins made between
  // midnight of the first day and midnight after the last, nine hours ahead of UTC.
  predicate Asked(q: Query, r: Row) {
    && (if q.scope.Some? then q.scope else q.branch) in {None, Some(r.branch)}
    && (q.Members? ==> !r.deleted)
    && (q.CheckIns? ==>
          var local := r.time + 32_400_000_000;
          q.from * 86_400_000_000 <= local < (q.upto + 1) * 86_400_000_000)
  }

  lemma MatchesIff(q: Query, r: Row)
    ensures Matches(q, r) <==> Asked(q, r)
  {
  }

  lemma {:induction false} PageCountIsCeil(n: nat, size: nat)
    requires size > 0 && n > 0
    ensures (PageCount(n, size) - 1) * size < n <= PageCount(n, size) * size
  {
    if n > size {
      PageCountIsCeil(n - size, size);
    }
  }

  // So rows inserted above the cursor while a reader pages neither appear nor make it
  // skip or repeat a row that was there at the start.
  lemma ArrivalsDoNotDisturb(tables: seq<set<Row>>, q: Query, limit: int)
    requires forall k :: 0 <= k < |tables| ==> Table(tables[k])
    requires tables != [] && OnlyArrivals(tables, q, None, limit)
    requires |tables| >= PageCount(|OrderBy(Selected(tables[0], q, None))|, PageSize(limit))
    ensures var read := Concat(Walk(tables, q, None, limit));
            && Descending(read)
            && (forall r :: r in read <==> r in tables[0] && Asked(q, r))
            && |Walk(tables, q, None, limit)| == PageCount(|read|, if limit >= 1 then limit else 20)
  {
    ArrivalsAreQuiet(tables, q, None, limit);
    WalkReturnsAll(tables, q, None, limit);
    OrderedRows(Selected(tables[0], q, None));
    forall r
      ensures Matches(q, r) <==> Asked(q, r)
    {
      MatchesIff(q, r);
    }
  }

  // Newer rows with fresh ids are above every cursor a reader can hold.
  lemma NewerIsAbove(table: set<Row>, q: Query, cursor: Option<Cursor>, limit: int, r: Row)
    requires Table(table) && NextCursor(table, q, cursor, limit).Some?
    requires forall o :: o in table ==> o.time < r.time || (o.time == r.time && o.id < r.id)
    ensures !Past(NextCursor(table, q, cursor, limit), r)
  {
    var rows := Selected(table, q, cursor);
    OrderedRows(rows);
    assert OrderBy(rows)[PageSize(limit) - 1] in OrderBy(rows);
  }
}
