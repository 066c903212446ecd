// Limiter.dfy: the in-memory token bucket per IP address, with lazy removal of
// stale buckets, over real numbers and a monotone clock in seconds.
module Limiter {
  import opened Prelude

  type Ip = string

  datatype Bucket = Bucket(tokens: real, lastRefill: real, lastSeen: real)

  datatype Config = Config(window: real, max: int) {
    // What the constructor's callers pass: a positive window and at least one token.
    predicate Valid() { window > 0.0 && max >= 1 }

    function Rates(): (f: Flow)
      requires Valid()
      ensures f.Valid() && f.rate * window == f.full
    {
      Flow(max as real, max as real / window)
    }
  }

  // A full bucket, and the tokens it gains per second.
  datatype Flow = Flow(full: real, rate: real) {
    predicate Valid() { full >= 1.0 && rate > 0.0 }
  }

  datatype Verdict = Granted | Denied(retryAfter: int)

  datatype Call = Call(ip: Ip, at: real)

  function Min(a: real, b: real): real { if a <= b then a else b }

  function Ceil(x: real): int { -((-x).Floor) }

  // ---- the implementation ----------------------------------------------

  function Credited(f: Flow, b: Bucket, now: real): Bucket
    requires f.Valid()
  {
    var elapsed := now - b.lastRefill;
    if elapsed > 0.0
    then Bucket(Min(f.full, b.tokens + elapsed * f.rate), now, now)
    else b.(lastSeen := now)
  }

  function RetryAfter(f: Flow, tokens: real): int
    requires f.Valid()
  {
    var retry := Ceil((1.0 - tokens) / f.rate);
    if retry < 1 then 1 else retry
  }

  function Stale(b: Bucket, now: real, window: real): bool { now - b.lastSeen > window }

  function Collected(cfg: Config, buckets: map<Ip, Bucket>, now: real): map<Ip, Bucket> {
    map ip | ip in buckets && !Stale(buckets[ip], now, cfg.window) :: buckets[ip]
  }

  // One call: collect when the table is large, find or create the bucket, charge it.
  function AllowStep(cfg: Config, buckets: map<Ip, Bucket>, ip: Ip, now: real): (map<Ip, Bucket>, Verdict)
    requires cfg.Valid()
  {
    var kept := if |buckets| > cfg.max * 4 then Collected(cfg, buckets, now) else buckets;
    var b := if ip in kept then Credited(cfg.Rates(), kept[ip], now) else Bucket(cfg.Rates().full, now, now);
    if b.tokens >= 1.0
    then (kept[ip := b.(tokens := b.tokens - 1.0)], Granted)
    else (kept[ip := b], Denied(RetryAfter(cfg.Rates(), b.tokens)))
  }

  class TokenBuckets {
    const cfg: Config
    var buckets: map<Ip, Bucket>

    constructor (window: real, max: int)
      requires Config(window, max).Valid()
      ensures cfg == Config(window, max) && buckets == map[]
    {
      cfg := Config(window, max);
      buckets := map[];
    }

    method Allow(ip: Ip, now: real) returns (verdict: Verdict)
      requires cfg.Valid()
      modifies this
      ensures (buckets, verdict) == AllowStep(cfg, old(buckets), ip, now)
    {
      if |buckets| > cfg.max * 4 {
        CollectStale(now);
      }
      var b: Bucket;
      if ip in buckets {
        b := Credited(cfg.Rates(), buckets[ip], now);
      } else {
        b := Bucket(cfg.Rates().full, now, now);
      }
      if b.tokens >= 1.0 {
        buckets := buckets[ip := b.(tokens := b.tokens - 1.0)];
        return Granted;
      }
      buckets := buckets[ip := b];
      return Denied(RetryAfter(cfg.Rates(), b.tokens));
    }

    // Deletes while ranging over the table.
    method CollectStale(now: real)
      modifies this
      ensures buckets == Collected(cfg, old(buckets), now)
    {
      var todo := buckets.Keys;
      while todo != {}
        invariant todo <= buckets.Keys <= old(buckets).Keys
        invariant forall ip :: ip in buckets ==> buckets[ip] == old(buckets)[ip]
        invariant forall ip :: ip in old(buckets) && ip !in todo ==>
          (ip in buckets <==> !Stale(old(buckets)[ip], now, cfg.window))
        decreases todo
      {
        var ip :| ip in todo;
        if Stale(buckets[ip], now, cfg.window) {
          buckets := buckets - {ip};
        }
        todo := todo - {ip};
      }
    }
  }

  // ---- the reference: one bucket per address, never dropped --------------

  // The tokens gained between two instants.
  function Earned(f: Flow, since: real, now: real): real { f.rate * now - f.rate * since }

  function Refill(f: Flow, level: real, since: real, now: real): real { Min(f.full, level + Earned(f, since, now)) }

  function Charge(level: real): real { if level >= 1.0 then level - 1.0 else level }

  // The tokens of `ip` at `now`, after the given calls, when nothing is ever collected.
  function IdealLevel(f: Flow, calls: seq<Call>, ip: Ip, now: real): real
    requires f.Valid()
  {
    if calls == [] then f.full
    else
      var earlier, last := calls[..|calls| - 1], calls[|calls| - 1];
      if last.ip != ip then IdealLevel(f, earlier, ip, now)
      else Refill(f, Charge(IdealLevel(f, earlier, ip, last.at)), last.at, now)
  }

  function IdealVerdict(f: Flow, level: real): Verdict
    requires f.Valid()
  {
    if level >= 1.0 then Granted else Denied(RetryAfter(f, level))
  }

  // The table after a series of calls to the implementation.
  function TableAfter(cfg: Config, calls: seq<Call>): map<Ip, Bucket>
    requires cfg.Valid()
  {
    if calls == [] then map[]
    else
      var last := calls[|calls| - 1];
      AllowStep(cfg, TableAfter(cfg, calls[..|calls| - 1]), last.ip, last.at).0
  }

  predicate Monotone(calls: seq<Call>) {
    forall i, j :: 0 <= i <= j < |calls| ==> calls[i].at <= calls[j].at
  }

  // ---- refinement --------------------------------------------------------

  // The level the table stands for: an absent bucket counts as full.
  function Level(f: Flow, buckets: map<Ip, Bucket>, ip: Ip, now: real): real
    requires f.Valid()
  {
    if ip in buckets then Refill(f, buckets[ip].tokens, buckets[ip].lastRefill, now) else f.full
  }

  // Every stored bucket was last seen when it was last refilled, not after `now`.
  predicate TableOk(f: Flow, buckets: map<Ip, Bucket>, now: real) {
    forall ip :: ip in buckets ==>
      buckets[ip].lastSeen == buckets[ip].lastRefill <= now && 0.0 <= buckets[ip].tokens <= f.full
  }

  lemma EarnedNotNegative(f: Flow, since: real, now: real)
    requires f.Valid() && since <= now
    ensures Earned(f, since, now) >= 0.0
  {
    assert f.rate * (now - since) >= 0.0;
  }

  // A whole window refills any bucket.
  lemma WindowRefills(cfg: Config, since: real, now: real)
    requires cfg.Valid() && now - since >= cfg.window
    ensures Earned(cfg.Rates(), since, now) >= cfg.Rates().full
  {
    var f := cfg.Rates();
    EarnedNotNegative(f, since + cfg.window, now);
    assert f.rate * (since + cfg.window) == f.rate * since + f.rate * cfg.window;
  }

  // Collecting stale buckets does not change what the table stands for.
  lemma CollectKeepsLevels(cfg: Config, buckets: map<Ip, Bucket>, ip: Ip, now: real, later: real)
    requires cfg.Valid() && TableOk(cfg.Rates(), buckets, now) && now <= later
    ensures TableOk(cfg.Rates(), Collected(cfg, buckets, now), now)
    ensures Level(cfg.Rates(), Collected(cfg, buckets, now), ip, later) == Level(cfg.Rates(), buckets, ip, later)
  {
    if ip in buckets && Stale(buckets[ip], now, cfg.window) {
      WindowRefills(cfg, buckets[ip].lastRefill, later);
    }
  }

  // One call seen through Level: the caller's level is read, charged and refilled,
  // and every other address is untouched, whether or not buckets were collected.
  lemma AllowRefines(cfg: Config, buckets: map<Ip, Bucket>, ip: Ip, now: real, other: Ip, later: real)
    requires cfg.Valid() && TableOk(cfg.Rates(), buckets, now) && now <= later
    ensures var (after, verdict) := AllowStep(cfg, buckets, ip, now);
      && TableOk(cfg.Rates(), after, now)
      && verdict == IdealVerdict(cfg.Rates(), Level(cfg.Rates(), buckets, ip, now))
      && Level(cfg.Rates(), after, other, later) ==
           if other == ip
           then Refill(cfg.Rates(), Charge(Level(cfg.Rates(), buckets, ip, now)), now, later)
           else Level(cfg.Rates(), buckets, other, later)
  {
    var kept := if |buckets| > cfg.max * 4 then Collected(cfg, buckets, now) else buckets;
    CollectKeepsLevels(cfg, buckets, other, now, later);
    CollectKeepsLevels(cfg, buckets, ip, now, now);
    var b := if ip in kept then Credited(cfg.Rates(), kept[ip], now) else Bucket(cfg.Rates().full, now, now);
    ReadBucket(cfg.Rates(), kept, ip, now);
    WriteBucket(cfg.Rates(), kept, ip, b.(tokens := Charge(b.tokens)), now, other, later);
  }

  lemma ReadBucket(f: Flow, buckets: map<Ip, Bucket>, ip: Ip, now: real)
    requires f.Valid() && TableOk(f, buckets, now)
    ensures var b := if ip in buckets then Credited(f, buckets[ip], now) else Bucket(f.full, now, now);
      b == Bucket(Level(f, buckets, ip, now), now, now) && 0.0 <= b.tokens <= f.full
  {
    if ip in buckets {
      CreditIsRefill(f, buckets[ip], now);
    }
  }

  lemma WriteBucket(f: Flow, buckets: map<Ip, Bucket>, ip: Ip, b: Bucket, now: real, other: Ip, later: real)
    requires f.Valid() && TableOk(f, buckets, now)
    requires b.lastRefill == b.lastSeen == now && 0.0 <= b.tokens <= f.full
    ensures TableOk(f, buckets[ip := b], now)
    ensures Level(f, buckets[ip := b], other, later) ==
      if other == ip then Refill(f, b.tokens, now, later) else Level(f, buckets, other, later)
  {
  }

  lemma CreditIsRefill(f: Flow, b: Bucket, now: real)
    requires f.Valid() && b.lastRefill <= now && 0.0 <= b.tokens <= f.full
    ensures Credited(f, b, now).tokens == Refill(f, b.tokens, b.lastRefill, now)
    ensures Credited(f, b, now).lastRefill == now && Credited(f, b, now).lastSeen == now
    ensures 0.0 <= Credited(f, b, now).tokens <= f.full
  {
    EarnedNotNegative(f, b.lastRefill, now);
    assert (now - b.lastRefill) * f.rate == Earned(f, b.lastRefill, now);
  }

  lemma {:induction false} TableRefinesIdeal(cfg: Config, calls: seq<Call>, ip: Ip, now: real)
    requires cfg.Valid() && Monotone(calls) && (calls != [] ==> calls[|calls| - 1].at <= now)
    ensures TableOk(cfg.Rates(), TableAfter(cfg, calls), now)
    ensures Level(cfg.Rates(), TableAfter(cfg, calls), ip, now) == IdealLevel(cfg.Rates(), calls, ip, now)
    decreases |calls|
  {
    if calls != [] {
      var earlier, last := calls[..|calls| - 1], calls[|calls| - 1];
      TableRefinesIdeal(cfg, earlier, last.ip, last.at);
      TableRefinesIdeal(cfg, earlier, ip, now);
      AllowRefines(cfg, TableAfter(cfg, earlier), last.ip, last.at, ip, now);
    }
  }

  // Every decision and every Retry-After of the implementation is the one a bucket
  // that is never dropped would give; other addresses and the collection of stale
  // buckets have no influence.
  lemma DecisionIsIdeal(cfg: Config, calls: seq<Call>, ip: Ip, now: real)
    requires cfg.Valid() && Monotone(calls) && (calls != [] ==> calls[|calls| - 1].at <= now)
    ensures AllowStep(cfg, TableAfter(cfg, calls), ip, now).1 ==
      IdealVerdict(cfg.Rates(), IdealLevel(cfg.Rates(), calls, ip, now))
  {
    TableRefinesIdeal(cfg, calls, ip, now);
    AllowRefines(cfg, TableAfter(cfg, calls), ip, now, ip, now);
  }

  // ---- what the reference guarantees -------------------------------------

  lemma {:induction false} IdealBounds(f: Flow, calls: seq<Call>, ip: Ip, now: real)
    requires f.Valid() && Monotone(calls) && (calls != [] ==> calls[|calls| - 1].at <= now)
    ensures 0.0 <= IdealLevel(f, calls, ip, now) <= f.full
    decreases |calls|
  {
    if calls != [] {
      var earlier, last := calls[..|calls| - 1], calls[|calls| - 1];
      IdealBounds(f, earlier, ip, last.at);
      IdealBounds(f, earlier, ip, now);
      EarnedNotNegative(f, last.at, now);
    }
  }

  lemma {:induction false} IdealOverTime(f: Flow, calls: seq<Call>, ip: Ip, now: real, later: real)
    requires f.Valid() && Monotone(calls) && (calls != [] ==> calls[|calls| - 1].at <= now) && now <= later
    ensures IdealLevel(f, calls, ip, later) == Refill(f, IdealLevel(f, calls, ip, now), now, later)
    decreases |calls|
  {
    EarnedNotNegative(f, now, later);
    if calls != [] {
      var earlier, last := calls[..|calls| - 1], calls[|calls| - 1];
      if last.ip != ip {
        IdealOverTime(f, earlier, ip, now, later);
      }
    }
  }

  // The k-th call finds a whole token: by DecisionIsIdeal, it is granted.
  predicate IsGranted(f: Flow, calls: seq<Call>, k: nat)
    requires f.Valid() && k < |calls|
  {
    IdealLevel(f, calls[..k], calls[k].ip, calls[k].at) >= 1.0
  }

  lemma MonotonePrefix(calls: seq<Call>, k: nat)
    requires Monotone(calls) && k <= |calls|
    ensures Monotone(calls[..k])
  {
    assert forall i :: 0 <= i < k ==> calls[..k][i] == calls[i];
  }

  // Calls that were not granted, and calls of other addresses, never change a later
  // decision.
  lemma {:induction false} UngrantedCallsForgotten(f: Flow, calls: seq<Call>, mid: seq<Call>, ip: Ip, later: real)
    requires f.Valid() && Monotone(calls + mid) && (forall k :: 0 <= k < |calls + mid| ==> (calls + mid)[k].at <= later)
    requires forall k :: |calls| <= k < |calls + mid| && (calls + mid)[k].ip == ip ==> !IsGranted(f, calls + mid, k)
    ensures IdealLevel(f, calls + mid, ip, later) == IdealLevel(f, calls, ip, later)
    decreases |mid|
  {
    if mid == [] {
      assert calls + mid == calls;
    } else {
      var all := calls + mid;
      var n := |all| - 1;
      var fewer := mid[..|mid| - 1];
      assert all[..n] == calls + fewer;
      assert all[n].ip == ip ==> !IsGranted(f, all, n);
      forall k | |calls| <= k < n && (calls + fewer)[k].ip == ip
        ensures !IsGranted(f, calls + fewer, k)
      {
        assert (calls + fewer)[..k] == all[..k];
        assert !IsGranted(f, all, k);
      }
      MonotonePrefix(all, n);
      UngrantedCallsForgotten(f, calls, fewer, ip, later);
      if all[n].ip == ip {
        assert forall k :: 0 <= k < n ==> all[..n][k].at <= all[n].at;
        IdealOverTime(f, all[..n], ip, all[n].at, later);
      }
    }
  }

  // IsGranted is what the implementation answers to the k-th call.
  lemma GrantedByTable(cfg: Config, calls: seq<Call>, k: nat)
    requires cfg.Valid() && Monotone(calls) && k < |calls|
    ensures IsGranted(cfg.Rates(), calls, k) <==>
      AllowStep(cfg, TableAfter(cfg, calls[..k]), calls[k].ip, calls[k].at).1.Granted?
  {
    MonotonePrefix(calls, k);
    assert k > 0 ==> calls[..k][k - 1].at <= calls[k].at;
    DecisionIsIdeal(cfg, calls[..k], calls[k].ip, calls[k].at);
  }

  // The calls of `ip` granted among the calls i..j.
  function Grants(f: Flow, calls: seq<Call>, ip: Ip, i: nat, j: nat): nat
    requires f.Valid() && i <= j <= |calls|
  {
    if i == j then 0
    else Grants(f, calls, ip, i, j - 1) + Taken(f, calls, ip, j - 1)
  }

  function Taken(f: Flow, calls: seq<Call>, ip: Ip, k: nat): nat
    requires f.Valid() && k < |calls|
  {
    if calls[k].ip == ip && IsGranted(f, calls, k) then 1 else 0
  }

  // Tokens spent since call i, plus the tokens left, never exceed what was there
  // plus what was refilled.
  predicate Accounted(f: Flow, calls: seq<Call>, ip: Ip, i: nat, k: nat)
    requires f.Valid() && i <= k < |calls|
  {
    IdealLevel(f, calls[..k + 1], ip, calls[k].at) + Grants(f, calls, ip, i, k + 1) as real
      <= IdealLevel(f, calls[..i], ip, calls[i].at) + Earned(f, calls[i].at, calls[k].at)
  }

  lemma {:induction false} TokensAccounted(f: Flow, calls: seq<Call>, ip: Ip, i: nat, k: nat)
    requires f.Valid() && Monotone(calls) && i <= k < |calls|
    ensures Accounted(f, calls, ip, i, k)
    decreases k
  {
    if i < k {
      TokensAccounted(f, calls, ip, i, k - 1);
      AccountNext(f, calls, ip, i, k);
    } else {
      AccountFirst(f, calls, ip, i);
    }
  }

  lemma AccountFirst(f: Flow, calls: seq<Call>, ip: Ip, i: nat)
    requires f.Valid() && Monotone(calls) && i < |calls|
    ensures Accounted(f, calls, ip, i, i)
  {
    OneCallAccounted(f, calls, ip, i);
    assert Grants(f, calls, ip, i, i) == 0;
  }

  lemma AccountNext(f: Flow, calls: seq<Call>, ip: Ip, i: nat, k: nat)
    requires f.Valid() && Monotone(calls) && i < k < |calls|
    requires Accounted(f, calls, ip, i, k - 1)
    ensures Accounted(f, calls, ip, i, k)
  {
    MonotonePrefix(calls, k);
    assert calls[..k][k - 1].at <= calls[k].at;
    OneCallAccounted(f, calls, ip, k);
    RefillAtMost(f, calls[..k], ip, calls[k - 1].at, calls[k].at);
    assert calls[..k - 1 + 1] == calls[..k];
    GrantsNext(f, calls, ip, i, k);
    Carry(IdealLevel(f, calls[..k + 1], ip, calls[k].at), Taken(f, calls, ip, k) as real,
          IdealLevel(f, calls[..k], ip, calls[k].at), IdealLevel(f, calls[..k], ip, calls[k - 1].at),
          Grants(f, calls, ip, i, k) as real, IdealLevel(f, calls[..i], ip, calls[i].at),
          f, calls[i].at, calls[k - 1].at, calls[k].at);
  }

  lemma GrantsNext(f: Flow, calls: seq<Call>, ip: Ip, i: nat, k: nat)
    requires f.Valid() && i <= k < |calls|
    ensures Grants(f, calls, ip, i, k + 1) as real ==
      Grants(f, calls, ip, i, k) as real + Taken(f, calls, ip, k) as real
  {
  }

  lemma Carry(left: real, taken: real, before: real, previous: real, spent: real, start: real, f: Flow,
              a: real, b: real, c: real)
    requires left + taken == before && before <= previous + Earned(f, b, c)
    requires previous + spent <= start + Earned(f, a, b)
    ensures left + (spent + taken) <= start + Earned(f, a, c)
  {
  }

  lemma RefillAtMost(f: Flow, calls: seq<Call>, ip: Ip, now: real, later: real)
    requires f.Valid() && Monotone(calls) && (calls != [] ==> calls[|calls| - 1].at <= now) && now <= later
    ensures IdealLevel(f, calls, ip, later) <= IdealLevel(f, calls, ip, now) + Earned(f, now, later)
  {
    IdealOverTime(f, calls, ip, now, later);
  }

  // Call k itself: what is left afterwards plus the token it may have taken.
  lemma OneCallAccounted(f: Flow, calls: seq<Call>, ip: Ip, k: nat)
    requires f.Valid() && k < |calls|
    requires Monotone(calls)
    ensures IdealLevel(f, calls[..k + 1], ip, calls[k].at) +
      Taken(f, calls, ip, k) as real == IdealLevel(f, calls[..k], ip, calls[k].at)
  {
    MonotonePrefix(calls, k);
    assert k > 0 ==> calls[..k][k - 1].at <= calls[k].at;
    IdealBounds(f, calls[..k], ip, calls[k].at);
    LevelAfterCall(f, calls, ip, k);
    RefillNow(f, Charge(IdealLevel(f, calls[..k], ip, calls[k].at)), calls[k].at);
  }

  lemma LevelAfterCall(f: Flow, calls: seq<Call>, ip: Ip, k: nat)
    requires f.Valid() && k < |calls|
    ensures IdealLevel(f, calls[..k + 1], ip, calls[k].at) ==
      if calls[k].ip == ip
      then Refill(f, Charge(IdealLevel(f, calls[..k], ip, calls[k].at)), calls[k].at, calls[k].at)
      else IdealLevel(f, calls[..k], ip, calls[k].at)
  {
    assert calls[..k + 1][..k] == calls[..k];
  }

  lemma RefillNow(f: Flow, level: real, now: real)
    requires level <= f.full
    ensures Refill(f, level, now, now) == level
  {
  }

  // In any interval an address is granted at most max + rate * length calls.
  lemma GrantsInInterval(f: Flow, calls: seq<Call>, ip: Ip, i: nat, j: nat)
    requires f.Valid() && Monotone(calls) && i < j <= |calls|
    ensures Grants(f, calls, ip, i, j) as real <= f.full + Earned(f, calls[i].at, calls[j - 1].at)
  {
    TokensAccounted(f, calls, ip, i, j - 1);
    MonotonePrefix(calls, i);
    MonotonePrefix(calls, j);
    if i > 0 { assert calls[..i][i - 1].at <= calls[i].at; }
    IdealBounds(f, calls[..i], ip, calls[i].at);
    IdealBounds(f, calls[..j], ip, calls[j - 1].at);
  }

  // The calls i..j of `ip` that the limiter granted.
  function GrantedCalls(cfg: Config, calls: seq<Call>, ip: Ip, i: nat, j: nat): nat
    requires cfg.Valid() && i <= j <= |calls|
  {
    if i == j then 0
    else
      var k := j - 1;
      var verdict := AllowStep(cfg, TableAfter(cfg, calls[..k]), calls[k].ip, calls[k].at).1;
      GrantedCalls(cfg, calls, ip, i, k) + (if calls[k].ip == ip && verdict.Granted? then 1 else 0)
  }

  lemma {:induction false} GrantedCallsAreGrants(cfg: Config, calls: seq<Call>, ip: Ip, i: nat, j: nat)
    requires cfg.Valid() && Monotone(calls) && i <= j <= |calls|
    ensures GrantedCalls(cfg, calls, ip, i, j) == Grants(cfg.Rates(), calls, ip, i, j)
    decreases j
  {
    if i < j {
      GrantedCallsAreGrants(cfg, calls, ip, i, j - 1);
      GrantedByTable(cfg, calls, j - 1);
    }
  }

  // So in any interval the limiter grants an address at most the maximum and what is
  // earned in its length.
  lemma LimiterBound(cfg: Config, calls: seq<Call>, ip: Ip, i: nat, j: nat)
    requires cfg.Valid() && Monotone(calls) && i < j <= |calls|
    ensures GrantedCalls(cfg, calls, ip, i, j) as real <=
      cfg.max as real + Earned(cfg.Rates(), calls[i].at, calls[j - 1].at)
  {
    GrantedCallsAreGrants(cfg, calls, ip, i, j);
    GrantsInInterval(cfg.Rates(), calls, ip, i, j);
  }

  // One maximum is earned per window.
  lemma EarnedPerWindow(cfg: Config, since: real, now: real)
    requires cfg.Valid()
    ensures Earned(cfg.Rates(), since, now) * cfg.window == cfg.max as real * (now - since)
  {
    var rate := cfg.Rates().rate;
    assert Earned(cfg.Rates(), since, now) == rate * (now - since);
    Reorder(rate, now - since, cfg.window);
  }

  lemma Reorder(a: real, b: real, c: real)
    ensures a * b * c == a * c * b
  {
  }

  // An address that has been silent for a window has a full bucket.
  lemma {:induction false} RestedIsFull(cfg: Config, calls: seq<Call>, ip: Ip, now: real)
    requires cfg.Valid() && Monotone(calls)
    requires forall k :: 0 <= k < |calls| && calls[k].ip == ip ==> calls[k].at + cfg.window <= now
    ensures IdealLevel(cfg.Rates(), calls, ip, now) == cfg.max as real
    decreases |calls|
  {
    if calls != [] {
      var earlier, last := calls[..|calls| - 1], calls[|calls| - 1];
      if last.ip == ip {
        assert forall k :: 0 <= k < |earlier| ==> earlier[k].at <= last.at;
        IdealBounds(cfg.Rates(), earlier, ip, last.at);
        WindowRefills(cfg, last.at, now);
      } else {
        RestedIsFull(cfg, earlier, ip, now);
      }
    }
  }

  function Burst(ip: Ip, now: real, k: nat): seq<Call> {
    if k == 0 then [] else Burst(ip, now, k - 1) + [Call(ip, now)]
  }

  lemma {:induction false} BurstDrains(cfg: Config, calls: seq<Call>, ip: Ip, now: real, k: nat)
    requires cfg.Valid() && IdealLevel(cfg.Rates(), calls, ip, now) == cfg.max as real && k <= cfg.max
    ensures IdealLevel(cfg.Rates(), calls + Burst(ip, now, k), ip, now) == (cfg.max - k) as real
  {
    if k == 0 {
      assert calls + [] == calls;
    } else {
      var all := calls + Burst(ip, now, k);
      assert all[..|all| - 1] == calls + Burst(ip, now, k - 1) && all[|all| - 1] == Call(ip, now);
      BurstDrains(cfg, calls, ip, now, k - 1);
      RefillNow(cfg.Rates(), (cfg.max - k) as real, now);
    }
  }

  lemma {:induction false} BurstIsMonotone(calls: seq<Call>, ip: Ip, now: real, k: nat)
    requires Monotone(calls) && (calls != [] ==> calls[|calls| - 1].at <= now)
    ensures Monotone(calls + Burst(ip, now, k))
    ensures forall l :: 0 <= l < |calls + Burst(ip, now, k)| ==> (calls + Burst(ip, now, k))[l].at <= now
  {
    if k > 0 {
      BurstIsMonotone(calls, ip, now, k - 1);
      assert calls + Burst(ip, now, k) == calls + Burst(ip, now, k - 1) + [Call(ip, now)];
    } else {
      assert calls + Burst(ip, now, 0) == calls;
    }
  }

  // After a silent window an address is granted exactly its maximum in one burst.
  lemma BurstIsMax(cfg: Config, calls: seq<Call>, ip: Ip, now: real, k: nat)
    requires cfg.Valid() && Monotone(calls) && (calls != [] ==> calls[|calls| - 1].at <= now) && k <= cfg.max
    requires forall l :: 0 <= l < |calls| && calls[l].ip == ip ==> calls[l].at + cfg.window <= now
    ensures AllowStep(cfg, TableAfter(cfg, calls + Burst(ip, now, k)), ip, now).1.Granted? <==> k < cfg.max
  {
    RestedIsFull(cfg, calls, ip, now);
    BurstDrains(cfg, calls, ip, now, k);
    BurstIsMonotone(calls, ip, now, k);
    DecisionIsIdeal(cfg, calls + Burst(ip, now, k), ip, now);
  }

  lemma CeilIsLeast(x: real, s: int)
    ensures s >= Ceil(x) <==> s as real >= x
  {
  }

  // Retry-After is exact: as long as no other call of the address is granted in
  // between, a call s whole seconds after a denied one is granted if and only if s
  // is at least the advice.
  lemma RetryAfterIsExact(f: Flow, calls: seq<Call>, mid: seq<Call>, ip: Ip, now: real, s: nat)
    requires f.Valid() && Monotone(calls + mid) && (calls != [] ==> calls[|calls| - 1].at <= now)
    requires forall k :: 0 <= k < |calls + mid| ==> (calls + mid)[k].at <= now + s as real
    requires forall k :: |calls| <= k < |calls + mid| && (calls + mid)[k].ip == ip ==> !IsGranted(f, calls + mid, k)
    requires IdealVerdict(f, IdealLevel(f, calls, ip, now)).Denied?
    ensures IdealVerdict(f, IdealLevel(f, calls + mid, ip, now + s as real)).Granted? <==>
      s >= IdealVerdict(f, IdealLevel(f, calls, ip, now)).retryAfter
  {
    UngrantedCallsForgotten(f, calls, mid, ip, now + s as real);
    MonotonePrefix(calls + mid, |calls|);
    assert (calls + mid)[..|calls|] == calls;
    IdealOverTime(f, calls, ip, now, now + s as real);
    AdviceIsExact(f, IdealLevel(f, calls, ip, now), now, s);
  }

  lemma AdviceIsExact(f: Flow, level: real, now: real, s: nat)
    requires f.Valid() && level < 1.0
    ensures Refill(f, level, now, now + s as real) >= 1.0 <==> s >= RetryAfter(f, level)
  {
    var missing := (1.0 - level) / f.rate;
    CeilIsLeast(missing, s);
    MissingTokens(1.0 - level, f.rate, s as real);
    EarnedInSeconds(f, now, s as real);
  }

  lemma EarnedInSeconds(f: Flow, now: real, s: real)
    ensures Earned(f, now, now + s) == s * f.rate
  {
  }

  lemma MissingTokens(missing: real, rate: real, s: real)
    requires rate > 0.0 && missing > 0.0
    ensures missing / rate > 0.0
    ensures s >= missing / rate <==> s * rate >= missing
  {
    var t := missing / rate;
    assert t * rate == missing;
    ScaleOrder(s, t, rate);
    ScaleOrder(0.0, t, rate);
  }

  lemma ScaleOrder(a: real, b: real, r: real)
    requires r > 0.0
    ensures a >= b <==> a * r >= b * r
  {
    if a < b {
      assert (b - a) * r > 0.0;
    }
  }
}
