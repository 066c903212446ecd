// Idempotency.dfy: the Idempotency-Key layer around grant, refund and bulk extension.
module Idempotency {
  import opened Prelude
  import opened Schema
  import E = Engine
  import Store
  import Canonical
  import Json
  import Numeral

  // Times are microseconds.
  const DAY := 24 * 3_600 * 1_000_000

  // The labels carry a literal ":id": the path id is not part of them.
  datatype Endpoint = GrantEndpoint | RefundEndpoint | BulkExtendEndpoint

  // A stored response is its status and its body; the reply stands for the status.
  datatype KeyRow = KeyRow(admin: int, endpoint: Endpoint, hash: string, reply: E.Reply, body: string, createdAt: int)

  datatype Response =
    | KeyRequired
    | InvalidKey
    | Unauthorized
    | Refused(reply: E.Reply)
    | KeyConflict
    | Answer(reply: E.Reply, body: string)

  datatype World = World(db: Db, keys: map<string, KeyRow>)

  // What a body and path bind to. `start` is absent when the text is not a date; the
  // length of the granted term follows from it and the months.
  datatype Form =
    | GrantForm(member: int, scope: Option<int>, kind: string, months: Option<int>, start: Option<Date>,
                term: Days, amount: int, tender: string)
    | RefundForm(id: int, scope: Option<int>, reason: string)
    | BulkForm(branch: Option<int>, only: Option<string>, days: int, reason: string)

  // One request. `readable` tells whether the body binds at all, `hash` is taken over
  // its bytes, `rendered` is the body the handler would write if it does the work, and
  // `kept` whether the insert of the key row succeeds.
  datatype Call = Call(key: string, admin: int, form: Form, readable: bool, hash: string, rendered: string, kept: bool)

  function EndpointOf(f: Form): Endpoint {
    match f
    case GrantForm(_, _, _, _, _, _, _, _) => GrantEndpoint
    case RefundForm(_, _, _) => RefundEndpoint
    case BulkForm(_, _, _, _) => BulkExtendEndpoint
  }

  // The work a form asks for, once the guards have let it through.
  function RequestOf(f: Form): E.Request {
    match f
    case GrantForm(member, scope, kind, months, start, term, amount, tender) =>
      var offer := if kind == "monthly" && months.Some? then E.MonthlyOffer(months.value) else E.Pass10Offer;
      E.GrantReq(member, scope, offer, if start.Some? then start.value else 0, term, amount,
                 if tender == "cash" then Cash else Card)
    case RefundForm(id, scope, _) => E.RefundReq(id, scope)
    case BulkForm(branch, only, days, _) =>
      E.BulkExtendReq(E.Filter(branch, if only.Some? then Some(only.value == "pass10") else None), days)
  }

  // ---- the guards in front of the lookup ---------------------------------

  predicate IsHex(c: char) { Json.HexValue(c) >= 0 }

  // 8-4-4-4-12 hexadecimal digits, version 4, variant 8, 9, a or b.
  predicate UuidV4(key: string) {
    && |key| == 36
    && (forall i :: 0 <= i < 36 ==> if i in {8, 13, 18, 23} then key[i] == '-' else IsHex(key[i]))
    && key[14] == '4'
    && key[19] in {'8', '9', 'a', 'b', 'A', 'B'}
  }

  predicate AllHex(s: string) { forall i :: 0 <= i < |s| ==> IsHex(s[i]) }

  // Of the keys in the usual five groups, those of version 4 and its variant are valid.
  lemma KeyShapeIff(a: string, b: string, version: char, c: string, variant: char, d: string, e: string)
    requires |a| == 8 && |b| == 4 && |c| == 3 && |d| == 3 && |e| == 12
    requires AllHex(a) && AllHex(b) && AllHex(c) && AllHex(d) && AllHex(e)
    ensures UuidV4(a + "-" + b + "-" + [version] + c + "-" + [variant] + d + "-" + e) <==>
      version == '4' && variant in "89abAB"
  {
    var key := a + "-" + b + "-" + [version] + c + "-" + [variant] + d + "-" + e;
    assert key[..8] == a && key[9..13] == b && key[15..18] == c && key[20..23] == d && key[24..] == e;
    forall i | 0 <= i < 36 && i !in {8, 13, 14, 18, 19, 23}
      ensures IsHex(key[i])
    {
      if i < 8 { assert key[i] == a[i]; }
      else if i < 13 { assert key[i] == b[i - 9]; }
      else if i < 18 { assert key[i] == c[i - 15]; }
      else if i < 23 { assert key[i] == d[i - 20]; }
      else { assert key[i] == e[i - 24]; }
    }
  }

  // Unicode white space, as strings.TrimSpace removes it.
  predicate IsSpace(c: char) {
    var n := c as int;
    || 9 <= n <= 13 || n == 0x20 || n == 0x85 || n == 0xA0 || n == 0x1680 || 0x2000 <= n <= 0x200A
    || n == 0x2028 || n == 0x2029 || n == 0x202F || n == 0x205F || n == 0x3000
  }

  predicate Blank(s: string) { forall i :: 0 <= i < |s| ==> IsSpace(s[i]) }

  function GrantGuard(db: Db, f: Form): Option<E.Reply>
    requires f.GrantForm?
  {
    if f.kind != "monthly" && f.kind != "pass10" then Some(E.InvalidInput)
    else if f.kind == "monthly" && (f.months.None? || f.months.value < 1) then Some(E.InvalidMonths)
    else if f.amount <= 0 then Some(E.InvalidAmount)
    else if f.tender != "cash" && f.tender != "card" then Some(E.InvalidInput)
    else if f.start.None? then Some(E.InvalidInput)
    else if f.start.value < db.today then Some(E.InvalidStartDate)
    else if !E.MemberVisible(db, f.member, f.scope) then Some(E.NotFound)
    else None
  }

  function RefundGuard(db: Db, f: Form): Option<E.Reply>
    requires f.RefundForm?
  {
    if Blank(f.reason) then Some(E.InvalidInput)
    else if !E.Visible(db, f.id, f.scope) then Some(E.NotFound)
    else None
  }

  function BulkGuard(f: Form): Option<E.Reply>
    requires f.BulkForm?
  {
    if f.days < 1 || f.days > 90 then Some(E.InvalidExtendDays)
    else if Blank(f.reason) then Some(E.InvalidInput)
    else if f.only.Some? && f.only.value != "monthly" && f.only.value != "pass10" then Some(E.InvalidInput)
    else None
  }

  function FormGuard(db: Db, f: Form): Option<E.Reply> {
    match EndpointOf(f)
    case GrantEndpoint => GrantGuard(db, f)
    case RefundEndpoint => RefundGuard(db, f)
    case BulkExtendEndpoint => BulkGuard(f)
  }

  // The refusal a handler gives before it looks the key up.
  function Guard(db: Db, c: Call): Option<Response> {
    if c.key == "" then Some(KeyRequired)
    else if !UuidV4(c.key) then Some(InvalidKey)
    else if !c.readable then Some(Refused(E.InvalidInput))
    else
      match FormGuard(db, c.form)
      case Some(reply) => Some(Refused(reply))
      case None => if c.admin <= 0 then Some(Unauthorized) else None
  }

  // ---- the table ---------------------------------------------------------

  function Find(keys: map<string, KeyRow>, key: string, now: int): Option<KeyRow> {
    if key in keys && keys[key].createdAt >= now - DAY then Some(keys[key]) else None
  }

  function Inserted(keys: map<string, KeyRow>, key: string, row: KeyRow): map<string, KeyRow> {
    if key in keys then keys else keys[key := row]
  }

  function Cleaned(keys: map<string, KeyRow>, now: int): map<string, KeyRow> {
    map k | k in keys && keys[k].createdAt >= now - DAY :: keys[k]
  }

  datatype LookupResult = Miss | Conflict | Hit(reply: E.Reply, body: string)

  function Lookup(keys: map<string, KeyRow>, key: string, endpoint: Endpoint, admin: int, hash: string, now: int)
    : LookupResult
  {
    match Find(keys, key, now)
    case None => Miss
    case Some(row) =>
      if row.admin != admin || row.endpoint != endpoint || row.hash != hash then Conflict else Hit(row.reply, row.body)
  }

  // ---- one request -------------------------------------------------------

  // Bulk extension stores its success and its conflict, the other two their success.
  predicate Stored(reply: E.Reply) { reply.Done? || reply.ExtendedRows? || reply.ConflictAt? }

  // After a miss: the work is done, and what it answers is stored.
  function Perform(w: World, c: Call, now: int): (World, Response) {
    var out := E.Step(w.db, RequestOf(c.form));
    if !Stored(out.reply) then (World(out.db, w.keys), Refused(out.reply))
    else
      var row := KeyRow(c.admin, EndpointOf(c.form), c.hash, out.reply, c.rendered, now);
      (World(out.db, if c.kept then Inserted(w.keys, c.key, row) else w.keys), Answer(out.reply, c.rendered))
  }

  function Serve(w: World, c: Call, now: int): (World, Response) {
    match Guard(w.db, c)
    case Some(refusal) => (w, refusal)
    case None =>
      match Lookup(w.keys, c.key, EndpointOf(c.form), c.admin, c.hash, now)
      case Conflict => (w, KeyConflict)
      case Hit(reply, body) => (w, Answer(reply, body))
      case Miss => Perform(w, c, now)
  }

  // The call gets as far as doing the work.
  predicate Executes(w: World, c: Call, now: int) { Guard(w.db, c).None? && Find(w.keys, c.key, now).None? }

  datatype Act =
    | KeyedCall(call: Call)
    | Other(request: E.Request)
    | CleanKeys

  function Step(w: World, e: Timed<Act>): World {
    match e.event
    case KeyedCall(c) => Serve(w, c, e.now).0
    case Other(r) => World(E.Step(w.db, r).db, w.keys)
    case CleanKeys => World(w.db, Cleaned(w.keys, e.now))
  }

  // ---- the handlers ------------------------------------------------------

  class Gateway {
    const gym: Store.Gym
    var keys: map<string, KeyRow>

    constructor (gym: Store.Gym)
      ensures this.gym == gym && keys == map[]
    {
      this.gym, keys := gym, map[];
    }

    ghost function Both(): World
      reads this, gym
    {
      World(gym.State(), keys)
    }

    method InsertIdempotencyKey(key: string, row: KeyRow)
      modifies this`keys
      ensures keys == Inserted(old(keys), key, row)
    {
      if key !in keys {
        keys := keys[key := row];
      }
    }

    method LookUp(key: string, endpoint: Endpoint, admin: int, hash: string, now: int) returns (r: LookupResult)
      ensures r == Lookup(keys, key, endpoint, admin, hash, now)
    {
      if key !in keys || keys[key].createdAt < now - DAY {
        return Miss;
      }
      var row := keys[key];
      if row.admin != admin || row.endpoint != endpoint || row.hash != hash {
        return Conflict;
      }
      return Hit(row.reply, row.body);
    }

    method CleanupIdempotencyKeys(now: int) returns (deleted: int)
      modifies this`keys
      ensures keys == Cleaned(old(keys), now) && deleted == |old(keys)| - |keys|
    {
      var fresher := map k | k in keys && keys[k].createdAt >= now - DAY :: keys[k];
      deleted := |keys| - |fresher|;
      keys := fresher;
    }

    // The checks of the header and of the body's shape.
    method CheckRequest(c: Call) returns (refusal: Option<Response>)
      ensures refusal ==
        if c.key == "" then Some(KeyRequired)
        else if !UuidV4(c.key) then Some(InvalidKey)
        else if !c.readable then Some(Refused(E.InvalidInput))
        else None
    {
      if c.key == "" { return Some(KeyRequired); }
      if !UuidV4(c.key) { return Some(InvalidKey); }
      if !c.readable { return Some(Refused(E.InvalidInput)); }
      return None;
    }

    // Stores the answer of the work under the key.
    method Keep(c: Call, reply: E.Reply, now: int) returns (r: Response)
      modifies this`keys
      ensures r == Answer(reply, c.rendered)
      ensures keys ==
        if c.kept
        then Inserted(old(keys), c.key, KeyRow(c.admin, EndpointOf(c.form), c.hash, reply, c.rendered, now))
        else old(keys)
    {
      if c.kept {
        InsertIdempotencyKey(c.key, KeyRow(c.admin, EndpointOf(c.form), c.hash, reply, c.rendered, now));
      }
      return Answer(reply, c.rendered);
    }

    method BulkExtend(c: Call, now: int) returns (r: Response)
      requires c.form.BulkForm? && gym.Valid()
      modifies this, gym
      ensures (Both(), r) == Serve(old(Both()), c, now) && gym.Valid()
    {
      var refusal := CheckRequest(c);
      if refusal.Some? { return refusal.value; }
      var f := c.form;
      if f.days < 1 || f.days > 90 { return Refused(E.InvalidExtendDays); }
      if Blank(f.reason) { return Refused(E.InvalidInput); }
      if f.only.Some? && f.only.value != "monthly" && f.only.value != "pass10" { return Refused(E.InvalidInput); }
      if c.admin <= 0 { return Unauthorized; }
      var hit := LookUp(c.key, BulkExtendEndpoint, c.admin, c.hash, now);
      if hit.Conflict? { return KeyConflict; }
      if hit.Hit? { return Answer(hit.reply, hit.body); }
      r := ExtendNow(c, now);
    }

    method ExtendNow(c: Call, now: int) returns (r: Response)
      requires c.form.BulkForm? && 1 <= c.form.days <= 90 && gym.Valid()
      modifies this, gym
      ensures (Both(), r) == Perform(old(Both()), c, now) && gym.Valid()
    {
      ghost var w := Both();
      BulkIsStored(w.db, RequestOf(c.form));
      var reply := Extend(RequestOf(c.form));
      Performed(w, c, now, E.Outcome(gym.State(), reply));
      r := Keep(c, reply, now);
    }

    method Extend(q: E.Request) returns (reply: E.Reply)
      requires q.BulkExtendReq? && 1 <= q.days <= 90 && gym.Valid()
      modifies gym
      ensures E.Outcome(gym.State(), reply) == E.Step(old(gym.State()), q) && gym.Valid()
    {
      ghost var out := E.BulkExtend(gym.State(), q.filter, q.days);
      StepIsBulk(gym.State(), q);
      reply := gym.ExtendAll(q.filter, q.days);
      assert E.Outcome(gym.State(), reply) == out;
    }

    method Grant(c: Call, now: int) returns (r: Response)
      requires c.form.GrantForm? && gym.Valid()
      modifies this, gym
      ensures (Both(), r) == Serve(old(Both()), c, now) && gym.Valid()
    {
      var refusal := CheckRequest(c);
      if refusal.Some? { return refusal.value; }
      var f := c.form;
      if f.kind != "monthly" && f.kind != "pass10" { return Refused(E.InvalidInput); }
      if f.kind == "monthly" {
        if f.months.None? || f.months.value < 1 { return Refused(E.InvalidMonths); }
      }
      if f.amount <= 0 { return Refused(E.InvalidAmount); }
      if f.tender != "cash" && f.tender != "card" { return Refused(E.InvalidInput); }
      if f.start.None? { return Refused(E.InvalidInput); }
      if f.start.value < gym.today { return Refused(E.InvalidStartDate); }
      if !E.MemberVisible(gym.State(), f.member, f.scope) { return Refused(E.NotFound); }
      if c.admin <= 0 { return Unauthorized; }
      var hit := LookUp(c.key, GrantEndpoint, c.admin, c.hash, now);
      if hit.Conflict? { return KeyConflict; }
      if hit.Hit? { return Answer(hit.reply, hit.body); }
      r := GrantNow(c, now);
    }

    method GrantNow(c: Call, now: int) returns (r: Response)
      requires c.form.GrantForm? && gym.Valid()
      modifies this, gym
      ensures (Both(), r) == Perform(old(Both()), c, now) && gym.Valid()
    {
      var q := RequestOf(c.form);
      var reply := gym.GrantMembership(q.member, q.scope, q.offer, q.start, q.term, q.amount, q.tender);
      if reply != E.Done { return Refused(reply); }
      r := Keep(c, reply, now);
    }

    // The replay lookup stands before the status guards.
    method Refund(c: Call, now: int) returns (r: Response)
      requires c.form.RefundForm? && gym.Valid()
      modifies this, gym
      ensures (Both(), r) == Serve(old(Both()), c, now) && gym.Valid()
    {
      var refusal := CheckRequest(c);
      if refusal.Some? { return refusal.value; }
      if Blank(c.form.reason) { return Refused(E.InvalidInput); }
      if !E.Visible(gym.State(), c.form.id, c.form.scope) { return Refused(E.NotFound); }
      if c.admin <= 0 { return Unauthorized; }
      var hit := LookUp(c.key, RefundEndpoint, c.admin, c.hash, now);
      if hit.Conflict? { return KeyConflict; }
      if hit.Hit? { return Answer(hit.reply, hit.body); }
      r := RefundNow(c, now);
    }

    method RefundNow(c: Call, now: int) returns (r: Response)
      requires c.form.RefundForm? && gym.Valid()
      modifies this, gym
      ensures (Both(), r) == Perform(old(Both()), c, now) && gym.Valid()
    {
      var reply := gym.RefundMembership(c.form.id, c.form.scope);
      if reply != E.Done { return Refused(reply); }
      r := Keep(c, reply, now);
    }
  }

  lemma Performed(w: World, c: Call, now: int, out: E.Outcome)
    requires out == E.Step(w.db, RequestOf(c.form)) && Stored(out.reply)
    ensures Perform(w, c, now) ==
      (World(out.db,
             if c.kept
             then Inserted(w.keys, c.key, KeyRow(c.admin, EndpointOf(c.form), c.hash, out.reply, c.rendered, now))
             else w.keys),
       Answer(out.reply, c.rendered))
  {
  }

  lemma StepIsBulk(db: Db, q: E.Request)
    requires q.BulkExtendReq?
    ensures E.Step(db, q) == E.BulkExtend(db, q.filter, q.days)
  {
  }

  // Whatever a bulk extension answers in range is stored.
  lemma BulkIsStored(db: Db, q: E.Request)
    requires q.BulkExtendReq? && 1 <= q.days <= 90
    ensures Stored(E.Step(db, q).reply)
  {
  }

  // ---- runs --------------------------------------------------------------

  function Run(w: World, es: seq<Timed<Act>>): World
    decreases |es|
  {
    if es == [] then w else Run(Step(w, es[0]), es[1..])
  }

  // Cleaning up never changes the answer of a lookup, then or later.
  lemma CleanupIsInvisible(keys: map<string, KeyRow>, key: string, now: int, later: int)
    requires now <= later
    ensures Find(Cleaned(keys, now), key, later) == Find(keys, key, later)
  {
  }

  // A fresh row outlives every step of its day, unchanged: nothing overwrites or
  // removes it.
  lemma RowOutlivesStep(w: World, e: Timed<Act>, key: string)
    requires Find(w.keys, key, e.now).Some?
    ensures key in Step(w, e).keys && Step(w, e).keys[key] == w.keys[key]
  {
  }

  lemma {:induction false} RowOutlivesRun(w: World, es: seq<Timed<Act>>, key: string)
    requires key in w.keys && forall i :: 0 <= i < |es| ==> es[i].now <= w.keys[key].createdAt + DAY
    ensures key in Run(w, es).keys && Run(w, es).keys[key] == w.keys[key]
    decreases |es|
  {
    if es != [] {
      RowOutlivesStep(w, es[0], key);
      RowOutlivesRun(Step(w, es[0]), es[1..], key);
    }
  }

  // What a call with a fresh row under its key does: nothing, and its answer is the
  // stored one exactly when admin, endpoint and hash are those of the row.
  lemma ReplayIsHarmless(w: World, c: Call, now: int)
    requires Find(w.keys, c.key, now).Some?
    ensures Serve(w, c, now).0 == w
    ensures var row := w.keys[c.key];
            Serve(w, c, now).1 ==
              if Guard(w.db, c).Some? then Guard(w.db, c).value
              else if row.admin == c.admin && row.endpoint == EndpointOf(c.form) && row.hash == c.hash
              then Answer(row.reply, row.body)
              else KeyConflict
  {
  }

  // The call did its work, answered, and its response was stored under a key that was
  // not in the table.
  predicate Recorded(w: World, c: Call, now: int) {
    Executes(w, c, now) && Stored(E.Step(w.db, RequestOf(c.form)).reply) && c.kept && c.key !in w.keys
  }

  predicate WithinADay(es: seq<Timed<Act>>, at: int) { forall i :: 0 <= i < |es| ==> es[i].now <= at + DAY }

  // At most once: for 24 hours after a recorded call, through any other requests, calls
  // and cleanups, no call under its key changes anything; the same request gets the
  // first answer byte for byte, a different admin, endpoint or body gets a conflict.
  lemma {:induction false} AtMostOnce(w: World, first: Call, at: int, between: seq<Timed<Act>>, again: Call, now: int)
    requires again.key == first.key && Recorded(w, first, at) && now <= at + DAY && WithinADay(between, at)
    ensures var (after, answer) := Serve(w, first, at);
            var later := Run(after, between);
            var (end, response) := Serve(later, again, now);
            && answer.Answer? && end == later
            && response ==
              if Guard(later.db, again).Some? then Guard(later.db, again).value
              else if again.admin == first.admin && EndpointOf(again.form) == EndpointOf(first.form)
                && again.hash == first.hash
              then answer
              else KeyConflict
  {
    var after := Serve(w, first, at).0;
    assert after.keys[first.key].createdAt == at;
    RowOutlivesRun(after, between, first.key);
    ReplayIsHarmless(Run(after, between), again, now);
  }

  // The guards of a bulk extension look at the request alone, so its retry always gets
  // the first status and body.
  lemma {:induction false} BulkRetryAnswersAlike(w: World, first: Call, at: int, between: seq<Timed<Act>>, now: int)
    requires first.form.BulkForm? && Recorded(w, first, at) && now <= at + DAY && WithinADay(between, at)
    ensures Serve(Run(Serve(w, first, at).0, between), first, now).1 == Serve(w, first, at).1
  {
    BulkGuardIgnoresTables(w.db, Run(Serve(w, first, at).0, between).db, first);
    AtMostOnce(w, first, at, between, first, now);
  }

  lemma BulkGuardIgnoresTables(db: Db, other: Db, c: Call)
    requires c.form.BulkForm?
    ensures Guard(db, c) == Guard(other, c)
  {
  }

  // ---- when the key row is in the way ------------------------------------

  predicate Touches(e: Timed<Act>, key: string) { e.event.KeyedCall? && e.event.call.key == key }

  // Between calls under the key its row only disappears by cleanup, once stale.
  lemma {:induction false} StaleStaysStale(w: World, es: seq<Timed<Act>>, key: string, at: int)
    requires forall i :: 0 <= i < |es| ==> !Touches(es[i], key)
    requires key !in w.keys || w.keys[key].createdAt < at - DAY
    ensures key !in Run(w, es).keys || Run(w, es).keys[key].createdAt < at - DAY
    decreases |es|
  {
    if es != [] {
      StaleStaysStale(Step(w, es[0]), es[1..], key, at);
    }
  }

  // Exactly when the work is not repeated: a call that executed and answered blocks the
  // next call under its key for 24 hours if and only if its row could be written and the
  // table held no row of that key when it executed. A row older than a day that no
  // cleanup has removed is invisible to the lookup, yet it keeps the new response from
  // being stored.
  lemma {:induction false} RepeatBlockedIff(w: World, first: Call, at: int, between: seq<Timed<Act>>,
                                            again: Call, now: int)
    requires again.key == first.key
    requires Executes(w, first, at) && Stored(E.Step(w.db, RequestOf(first.form)).reply)
    requires WithinADay(between, at) && forall i :: 0 <= i < |between| ==> !Touches(between[i], first.key)
    requires at <= now <= at + DAY
    requires Guard(Run(Serve(w, first, at).0, between).db, again).None?
    ensures !Executes(Run(Serve(w, first, at).0, between), again, now) <==> first.kept && first.key !in w.keys
  {
    var after := Serve(w, first, at).0;
    if first.key in w.keys || !first.kept {
      StaleStaysStale(after, between, first.key, at);
    } else {
      assert after.keys[first.key].createdAt == at;
      RowOutlivesRun(after, between, first.key);
    }
  }

  // One member with one membership, and a stale row of the key.
  function StaleWorld(m: Membership, today: Date, key: string, row: KeyRow): World {
    World(Db(today, map[m.member := Member(0, false)], [m], [], [], []), map[key := row])
  }

  lemma OneRowExtension(db: Db, m: Membership, f: E.Filter, days: int)
    requires db.rows == [m] && m.Live() && E.MemberVisible(db, m.member, None)
    requires f == E.Filter(None, None) && 1 <= days <= 90
    ensures E.BulkExtend(db, f, days).reply == E.ExtendedRows(1)
    ensures E.BulkExtend(db, f, days).db.rows == [E.ExtendedRow(m, days, db.today)]
    ensures E.BulkExtend(db, f, days).db.members == db.members
  {
    assert E.Targets(db, f, 0) == [];
    assert E.IsTarget(db, f, 0);
    assert E.Targets(db, f, 1) == [0];
  }

  // The failing run: under a stale row one bulk-extend request, sent twice at the same
  // moment, extends the membership twice.
  lemma StaleRowExtendsTwice(m: Membership, today: Date, row: KeyRow, c: Call, at: int)
    requires m.Live() && row.createdAt < at - DAY
    requires c.form.BulkForm? && c.form.branch.None? && c.form.only.None? && c.kept
    requires var w := StaleWorld(m, today, c.key, row); Guard(w.db, c).None?
    ensures var w := StaleWorld(m, today, c.key, row);
            var once := Serve(w, c, at).0;
            var twice := Serve(once, c, at).0;
            && once.keys == twice.keys == w.keys
            && once.db.rows[0].end == m.end + c.form.days
            && twice.db.rows[0].end == m.end + 2 * c.form.days
  {
    var w := StaleWorld(m, today, c.key, row);
    var f := RequestOf(c.form).filter;
    var once := Serve(w, c, at).0;
    OneRowExtension(w.db, m, f, c.form.days);
    BulkGuardIgnoresTables(w.db, once.db, c);
    OneRowExtension(once.db, once.db.rows[0], f, c.form.days);
  }

  // ---- what identifies a request -----------------------------------------

  // With the hash taken over the canonical body, two bodies are the same request
  // exactly when they mean the same value, and identical bodies always are.
  lemma SameBodyIff(fl: Numeral.Floats, w: World, first: Call, at: int, again: Call, now: int, a: string, b: string)
    requires Numeral.Sound(fl) && Recorded(w, first, at) && now <= at + DAY
    requires again.key == first.key && again.admin == first.admin && EndpointOf(again.form) == EndpointOf(first.form)
    requires first.hash == Canonical.Canon(fl, a) && again.hash == Canonical.Canon(fl, b)
    requires Guard(Serve(w, first, at).0.db, again).None?
    ensures Serve(Serve(w, first, at).0, again, now).1 ==
      if Canonical.Meaning(fl, a) == Canonical.Meaning(fl, b) && (Canonical.Meaning(fl, a).None? ==> a == b)
      then Serve(w, first, at).1 else KeyConflict
  {
    Canonical.SameCanonIff(fl, a, b);
    AtMostOnce(w, first, at, [], again, now);
  }

  // The path id is not part of the identity: a refund of another membership under the
  // same key and body is answered with the first refund and refunds nothing.
  lemma {:induction false} OtherIdIsReplayed(w: World, first: Call, at: int, id: int, now: int)
    requires first.form.RefundForm? && Recorded(w, first, at) && now <= at + DAY
    requires E.Visible(Serve(w, first, at).0.db, id, first.form.scope)
    ensures var again := first.(form := first.form.(id := id));
            Serve(Serve(w, first, at).0, again, now) == (Serve(w, first, at).0, Serve(w, first, at).1)
  {
    AtMostOnce(w, first, at, [], first.(form := first.form.(id := id)), now);
  }
}
