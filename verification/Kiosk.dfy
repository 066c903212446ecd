// Kiosk.dfy: the check-in handler, which answers a repeated click from the cache
// instead of the database.
module Kiosk {
  import opened Prelude
  import opened Schema
  import opened Engine
  import opened Calendar
  import opened Answers
  import opened Store
  import opened Decimal
  import opened Lru

  // The rendered response. The time of the visit is rendered to the second; clock
  // readings are microseconds.
  datatype Body = Body(id: int, checkedInAt: int, pass: bool, remaining: Option<int>, end: Date, expiredAfter: bool)

  datatype Response = Created(body: Body) | Failed(reply: Reply)

  datatype World = World(db: Db, lines: seq<Item<Body>>)

  function CacheKey(member: nat, branch: nat): string { Digits(member) + ":" + Digits(branch) }

  // The new check-in is the last row of its table; the membership is rendered as left by the visit.
  function Render(db: Db, id: int, newlyExpired: bool, now: int): Body
    requires 0 <= id < |db.rows|
  {
    var m := db.rows[id];
    var remaining := if m.plan.Pass10? then Some(m.plan.remaining) else None;
    Body(|db.checkIns| - 1, now / 1_000_000, m.plan.Pass10?, remaining, m.end, newlyExpired)
  }

  // After a miss: the response to the recorded visit is cached if the visit succeeded.
  function Remember(out: Outcome, lines: seq<Item<Body>>, max: int, ttl: int, key: string, now: int)
    : (World, Response)
  {
    if out.reply.Entered? && 0 <= out.reply.membership < |out.db.rows| then
      var body := Render(out.db, out.reply.membership, out.reply.newlyExpired, now);
      (World(out.db, SetStep(lines, max, key, body, now + ttl)), Created(body))
    else (World(out.db, lines), Failed(out.reply))
  }

  function CreateStep(w: World, max: int, ttl: int, member: int, branch: int, now: int): (World, Response) {
    if member <= 0 || branch <= 0 then (w, Failed(InvalidInput))
    else
      var (lines, hit) := GetStep(w.lines, CacheKey(member, branch), now);
      match hit
      case Some(body) => (World(w.db, lines), Created(body))
      case None => Remember(Enter(w.db, member, branch), lines, max, ttl, CacheKey(member, branch), now)
  }

  class CheckInHandler {
    const gym: Gym
    const cache: Cache<Body>

    constructor (gym: Gym, cache: Cache<Body>)
      ensures this.gym == gym && this.cache == cache
    {
      this.gym, this.cache := gym, cache;
    }

    ghost function Both(): World
      reads gym, cache, cache.ll
    {
      World(gym.State(), cache.Contents())
    }

    method Respond(reply: Reply, key: string, now: int) returns (r: Response)
      requires cache.Valid()
      modifies cache, cache.ll
      ensures cache.Valid()
      ensures (Both(), r) == Remember(Outcome(gym.State(), reply), old(cache.Contents()),
                                      cache.maxEntries, cache.ttl, key, now)
    {
      if reply.Entered? && 0 <= reply.membership < |gym.rows| {
        var body := Render(gym.State(), reply.membership, reply.newlyExpired, now);
        cache.Set(key, body, now);
        return Created(body);
      }
      return Failed(reply);
    }

    method Create(member: int, branch: int, now: int) returns (r: Response)
      requires gym.Valid() && cache.Valid()
      modifies gym, cache, cache.ll
      ensures gym.Valid() && cache.Valid()
      ensures (Both(), r) == CreateStep(old(Both()), cache.maxEntries, cache.ttl, member, branch, now)
    {
      if member <= 0 || branch <= 0 { return Failed(InvalidInput); }
      r := Answer(member, branch, CacheKey(member, branch), now);
    }

    method Answer(member: int, branch: int, key: string, now: int) returns (r: Response)
      requires gym.Valid() && cache.Valid()
      modifies gym, cache, cache.ll
      ensures gym.Valid() && cache.Valid()
      ensures var (lines, hit) := GetStep(old(cache.Contents()), key, now);
        if hit.Some? then Both() == World(old(gym.State()), lines) && r == Created(hit.value)
        else
          var out := Enter(old(gym.State()), member, branch);
          (Both(), r) == Remember(out, lines, cache.maxEntries, cache.ttl, key, now)
    {
      ghost var db := gym.State();
      var hit := cache.Get(key, now);
      ghost var lines := cache.Contents();
      assert gym.State() == db;
      if hit.Some? { return Created(hit.value); }
      var reply := gym.DoCheckIn(member, branch);
      ghost var out := Outcome(gym.State(), reply);
      assert cache.Contents() == lines;
      r := Respond(reply, key, now);
      assert (Both(), r) == Remember(out, lines, cache.maxEntries, cache.ttl, key, now);
    }
  }

  // Two different pairs never share a cache line.
  lemma PairsDoNotCollide(m1: nat, b1: nat, m2: nat, b2: nat)
    requires CacheKey(m1, b1) == CacheKey(m2, b2)
    ensures m1 == m2 && b1 == b2
  {
    PairInjective(m1, b1, m2, b2);
  }

  // What the first click of an admitted member is told: the check-in just recorded, the
  // visits left after it, and whether it ended the pass.
  lemma BodyTellsVisit(w: World, max: int, ttl: int, member: int, branch: int, now: int, i: int)
    requires CalendarOk(w.db) && Admits(w.db, i, member, branch) && member > 0 && branch > 0
    requires GetStep(w.lines, CacheKey(member, branch), now).1.None?
    ensures var m, (after, r) := w.db.rows[i], CreateStep(w, max, ttl, member, branch, now);
      var paid := if m.plan.Pass10? && !CameToday(w.db, member, branch) then 1 else 0;
      if m.plan.Pass10? && m.plan.remaining < paid then r == Failed(InvalidInput) && after.db == w.db
      else
        && after.db.checkIns == w.db.checkIns + [CheckIn(member, branch, i, w.db.today)]
        && var left := if m.plan.Pass10? then Some(m.plan.remaining - paid) else None;
        r == Created(Body(|w.db.checkIns|, now / 1_000_000, m.plan.Pass10?, left, m.end, paid == 1 && left == Some(0)))
  {
    EntryAccepted(w.db, member, branch, i);
  }

  // ---- a series of clicks ------------------------------------------------

  // Traffic is any request but a check-in, which only the handler makes.
  datatype Event = Click(member: int, branch: int, now: int) | Traffic(request: Request)

  function After(w: World, max: int, ttl: int, e: Event): World {
    match e
    case Click(member, branch, now) => CreateStep(w, max, ttl, member, branch, now).0
    case Traffic(request) => World(Step(w.db, request).db, w.lines)
  }

  function AfterAll(w: World, max: int, ttl: int, es: seq<Event>): World
    decreases |es|
  {
    if es == [] then w else AfterAll(After(w, max, ttl, es[0]), max, ttl, es[1..])
  }

  predicate Clicks(e: Event, member: int, branch: int) { e.Click? && e.member == member && e.branch == branch }

  // All clicks of the pair come before the expiry, and between two of them fewer than
  // `max` distinct other pairs click; `others` are the keys of those since the last one.
  predicate Uncrowded(es: seq<Event>, member: int, branch: int, max: int, expiry: int, others: set<string>)
    decreases |es|
  {
    es == [] ||
    match es[0]
    case Traffic(request) => !request.EnterReq? && Uncrowded(es[1..], member, branch, max, expiry, others)
    case Click(m, b, now) =>
      if m == member && b == branch then now < expiry && Uncrowded(es[1..], member, branch, max, expiry, {})
      else if m <= 0 || b <= 0 then Uncrowded(es[1..], member, branch, max, expiry, others)
      else
        var more := others + {CacheKey(m, b)};
        |more| < max && Uncrowded(es[1..], member, branch, max, expiry, more)
  }

  // Every click of the pair is answered with the body.
  predicate AllAnswered(w: World, max: int, ttl: int, es: seq<Event>, member: int, branch: int, body: Body)
    decreases |es|
  {
    es == [] ||
    ((Clicks(es[0], member, branch) ==> CreateStep(w, max, ttl, member, branch, es[0].now).1 == Created(body)) &&
     AllAnswered(After(w, max, ttl, es[0]), max, ttl, es[1..], member, branch, body))
  }

  // The check-in rows of a pair.
  function VisitsOf(log: seq<CheckIn>, member: int, branch: int): nat {
    if log == [] then 0
    else
      var last := log[|log| - 1];
      VisitsOf(log[..|log| - 1], member, branch) + (if last.member == member && last.branch == branch then 1 else 0)
  }

  lemma EnterVisits(db: Db, m: int, b: int, member: int, branch: int)
    ensures var out := Enter(db, m, b);
            VisitsOf(out.db.checkIns, member, branch) == VisitsOf(db.checkIns, member, branch)
              + (if out.reply.Entered? && m == member && b == branch then 1 else 0)
    ensures var out := Enter(db, m, b); out.reply.Entered? ==> 0 <= out.reply.membership < |out.db.rows|
  {
    var out := Enter(db, m, b);
    if out.reply.Entered? {
      var c := out.db.checkIns[|db.checkIns|];
      assert out.db.checkIns == db.checkIns + [c];
      assert (db.checkIns + [c])[..|db.checkIns|] == db.checkIns;
    }
  }

  lemma TrafficWritesNoVisit(db: Db, request: Request)
    requires !request.EnterReq?
    ensures Step(db, request).db.checkIns == db.checkIns
  {
  }

  lemma MoreAhead<V>(c: seq<Item<V>>, line: Item<V>, ahead: set<string>, more: set<string>)
    requires Recent(c, line, ahead) && ahead <= more
    ensures Recent(c, line, more)
  {
    var i :| Behind(c, i, line, ahead);
    assert Behind(c, i, line, more);
  }

  // One operation on another key leaves the line, behind that key at most.
  lemma OtherOpKeeps<V>(c: seq<Item<V>>, max: int, ttl: int, op: Op<V>, line: Item<V>, ahead: set<string>)
    requires 1 <= max && Sized(c, max) && Recent(c, line, ahead)
    requires op.key != line.key && |ahead + {op.key}| < max
    ensures Sized(Apply(c, max, ttl, op), max) && Recent(Apply(c, max, ttl, op), line, ahead + {op.key})
  {
    ApplyKeepsSize(c, max, ttl, op);
    OtherKeyKeeps(c, max, ttl, op, line, ahead);
    if !Touches(c, op) { MoreAhead(Apply(c, max, ttl, op), line, ahead, ahead + {op.key}); }
  }

  lemma OtherSetKeeps<V>(c: seq<Item<V>>, max: int, ttl: int, put: Op<V>, line: Item<V>, ahead: set<string>)
    requires 1 <= max && Sized(c, max) && Recent(c, line, ahead)
    requires put.key != line.key && put.key in ahead && |ahead| < max
    ensures Sized(Apply(c, max, ttl, put), max) && Recent(Apply(c, max, ttl, put), line, ahead)
  {
    assert ahead + {put.key} == ahead;
    OtherOpKeeps(c, max, ttl, put, line, ahead);
  }

  // What a click does: a lookup, and after a miss a visit whose response is set.
  ghost predicate ClickDoes(w: World, max: int, ttl: int, m: nat, b: nat, now: int, after: World, answer: Response) {
    var (lines, hit) := GetStep(w.lines, CacheKey(m, b), now);
    && (hit.Some? ==> after == World(w.db, lines) && answer == Created(hit.value))
    && (hit.None? && answer.Created? ==>
          after.lines == Apply(lines, max, ttl, SetOp(CacheKey(m, b), answer.body, now)))
    && (hit.None? && answer.Failed? ==> after.lines == lines)
    && (hit.None? ==>
          VisitsOf(after.db.checkIns, m, b) == VisitsOf(w.db.checkIns, m, b) + (if answer.Created? then 1 else 0))
  }

  lemma ClickSteps(w: World, max: int, ttl: int, m: int, b: int, now: int)
    requires m > 0 && b > 0
    ensures var (after, answer) := CreateStep(w, max, ttl, m, b, now); ClickDoes(w, max, ttl, m, b, now, after, answer)
  {
    EnterVisits(w.db, m, b, m, b);
    Remembers(Enter(w.db, m, b), GetStep(w.lines, CacheKey(m, b), now).0, max, ttl, CacheKey(m, b), now);
  }

  lemma Remembers(out: Outcome, lines: seq<Item<Body>>, max: int, ttl: int, key: string, now: int)
    requires out.reply.Entered? ==> 0 <= out.reply.membership < |out.db.rows|
    ensures var (after, answer) := Remember(out, lines, max, ttl, key, now);
            && after.db == out.db && (answer.Created? <==> out.reply.Entered?)
            && after.lines == if answer.Created? then Apply(lines, max, ttl, SetOp(key, answer.body, now)) else lines
  {
  }

  // A click of another pair leaves the line, behind that pair at most.
  lemma OtherClickKeeps(w: World, max: int, ttl: int, m: nat, b: nat, now: int, after: World, answer: Response,
                        line: Item<Body>, ahead: set<string>)
    requires 1 <= max && Sized(w.lines, max) && Recent(w.lines, line, ahead)
    requires ClickDoes(w, max, ttl, m, b, now, after, answer)
    requires CacheKey(m, b) != line.key && |ahead + {CacheKey(m, b)}| < max
    ensures Sized(after.lines, max) && Recent(after.lines, line, ahead + {CacheKey(m, b)})
  {
    var key := CacheKey(m, b);
    var (lines, hit) := GetStep(w.lines, key, now);
    OtherOpKeeps(w.lines, max, ttl, GetOp(key, now), line, ahead);
    if hit.None? && answer.Created? {
      OtherSetKeeps(lines, max, ttl, SetOp(key, answer.body, now), line, ahead + {key});
    }
  }

  // A click of the pair finds its line and brings it to the front.
  lemma OwnClickHits(w: World, max: int, ttl: int, member: int, branch: int, now: int, line: Item<Body>,
                     ahead: set<string>)
    requires 1 <= max && Sized(w.lines, max) && Recent(w.lines, line, ahead)
    requires member > 0 && branch > 0 && line.key == CacheKey(member, branch) && now < line.expiresAt
    ensures var (after, answer) := CreateStep(w, max, ttl, member, branch, now);
            && answer == Created(line.value) && after.db == w.db
            && Sized(after.lines, max) && Recent(after.lines, line, {})
  {
    ApplyKeepsSize(w.lines, max, ttl, GetOp(line.key, now));
    OwnReadHits(w.lines, line, ahead, now);
  }

  lemma OtherClickVisits(w: World, max: int, ttl: int, m: int, b: int, now: int, member: int, branch: int)
    requires m != member || b != branch
    ensures VisitsOf(CreateStep(w, max, ttl, m, b, now).0.db.checkIns, member, branch) ==
      VisitsOf(w.db.checkIns, member, branch)
  {
    EnterVisits(w.db, m, b, member, branch);
  }

  lemma {:induction false} LineAnswers(w: World, max: int, ttl: int, es: seq<Event>, member: int, branch: int,
                                       line: Item<Body>, others: set<string>)
    requires 1 <= max && Sized(w.lines, max) && Recent(w.lines, line, others)
    requires member > 0 && branch > 0 && line.key == CacheKey(member, branch)
    requires Uncrowded(es, member, branch, max, line.expiresAt, others)
    ensures AllAnswered(w, max, ttl, es, member, branch, line.value)
    ensures VisitsOf(AfterAll(w, max, ttl, es).db.checkIns, member, branch) == VisitsOf(w.db.checkIns, member, branch)
    decreases |es|
  {
    if es != [] {
      var next := After(w, max, ttl, es[0]);
      match es[0]
      case Traffic(request) =>
        TrafficWritesNoVisit(w.db, request);
        LineAnswers(next, max, ttl, es[1..], member, branch, line, others);
      case Click(m, b, now) =>
        if m == member && b == branch {
          OwnClickHits(w, max, ttl, m, b, now, line, others);
          LineAnswers(next, max, ttl, es[1..], member, branch, line, {});
        } else {
          OtherClickVisits(w, max, ttl, m, b, now, member, branch);
          if m > 0 && b > 0 {
            if CacheKey(m, b) == line.key { PairsDoNotCollide(m, b, member, branch); }
            ClickSteps(w, max, ttl, m, b, now);
            OtherClickKeeps(w, max, ttl, m, b, now, next, CreateStep(w, max, ttl, m, b, now).1, line, others);
            LineAnswers(next, max, ttl, es[1..], member, branch, line, others + {CacheKey(m, b)});
          } else {
            LineAnswers(next, max, ttl, es[1..], member, branch, line, others);
          }
        }
    }
  }

  // After a recorded click, through any clicks of other pairs and any other requests,
  // every click of the pair within the time to live gets the first body again, as long
  // as fewer than `max` distinct other pairs click in between; and exactly one check-in
  // row of the pair is added.
  lemma ClicksReplay(w: World, max: int, ttl: int, member: int, branch: int, at: int, es: seq<Event>)
    requires 1 <= max && Sized(w.lines, max) && member > 0 && branch > 0
    requires GetStep(w.lines, CacheKey(member, branch), at).1.None?
    requires CreateStep(w, max, ttl, member, branch, at).1.Created?
    requires Uncrowded(es, member, branch, max, at + ttl, {})
    ensures var (first, answer) := CreateStep(w, max, ttl, member, branch, at);
      && AllAnswered(first, max, ttl, es, member, branch, answer.body)
      && VisitsOf(AfterAll(first, max, ttl, es).db.checkIns, member, branch)
           == VisitsOf(w.db.checkIns, member, branch) + 1
  {
    var (first, answer) := CreateStep(w, max, ttl, member, branch, at);
    ClickSteps(w, max, ttl, member, branch, at);
    RecordedClick(w, max, ttl, member, branch, at, first, answer, es);
  }

  lemma RecordedClick(w: World, max: int, ttl: int, member: nat, branch: nat, at: int, first: World, answer: Response,
                      es: seq<Event>)
    requires 1 <= max && Sized(w.lines, max) && member > 0 && branch > 0
    requires GetStep(w.lines, CacheKey(member, branch), at).1.None? && answer.Created?
    requires ClickDoes(w, max, ttl, member, branch, at, first, answer)
    requires Uncrowded(es, member, branch, max, at + ttl, {})
    ensures AllAnswered(first, max, ttl, es, member, branch, answer.body)
    ensures VisitsOf(AfterAll(first, max, ttl, es).db.checkIns, member, branch)
         == VisitsOf(w.db.checkIns, member, branch) + 1
  {
    var key := CacheKey(member, branch);
    ApplyKeepsSize(w.lines, max, ttl, GetOp(key, at));
    FreshLine(GetStep(w.lines, key, at).0, max, ttl, key, answer.body, at);
    LineAnswers(first, max, ttl, es, member, branch, Item(key, answer.body, at + ttl), {});
  }

  lemma FreshLine<V>(c: seq<Item<V>>, max: int, ttl: int, key: string, value: V, now: int)
    requires 1 <= max && Sized(c, max)
    ensures var after := SetStep(c, max, key, value, now + ttl);
            Sized(after, max) && Recent(after, Item(key, value, now + ttl), {})
  {
    ApplyKeepsSize(c, max, ttl, SetOp(key, value, now));
    assert Behind(SetStep(c, max, key, value, now + ttl), 0, Item(key, value, now + ttl), {});
  }
}
