// Batch.dfy: the daily maintenance run. Six steps, each in its own transaction;
// a step may fail without stopping the others, and a cancelled context stops the
// loop.
module Batch {
  import opened Prelude
  import opened Schema
  import opened Engine
  import opened Calendar

  // A point in time, in seconds.
  type Instant = int

  const HOUR: int := 3600

  // The database clock of one run: the day, the instant, and the instant one year before.
  datatype Clock = Clock(day: Date, now: Instant, yearAgo: Instant)

  // The memberships, and the creation times of the rows of the three cleaned tables.
  datatype Tables = Tables(rows: seq<Membership>, keys: seq<Instant>, revoked: seq<Instant>, audits: seq<Instant>)

  datatype Job = Expire | Reactivate | Schedule | CleanKeys | CleanRevoked | CleanAudits

  const JOBS: seq<Job> := [Expire, Reactivate, Schedule, CleanKeys, CleanRevoked, CleanAudits]

  // What happens to the transaction of a step.
  datatype Fate = Commits | Fails | ContextDone

  datatype Stats = Stats(counts: map<Job, nat>, errors: seq<Job>)

  function RowAfter(job: Job, m: Membership, day: Date): Membership {
    match job
    case Expire => ExpireRow(m, day)
    case Reactivate => ReactivateRow(m, day)
    case Schedule => ScheduleRow(m, day)
    case _ => m
  }

  function RowsAfter(job: Job, rows: seq<Membership>, day: Date): (after: seq<Membership>)
    ensures |after| == |rows|
  {
    seq(|rows|, i requires 0 <= i < |rows| => RowAfter(job, rows[i], day))
  }

  // delete ... where created_at < cutoff
  function Kept(times: seq<Instant>, cutoff: Instant): (kept: seq<Instant>)
    ensures |kept| <= |times|
    ensures forall t :: t in kept <==> t in times && t >= cutoff
  {
    if times == [] then []
    else (if times[0] >= cutoff then [times[0]] else []) + Kept(times[1..], cutoff)
  }

  function TablesAfter(job: Job, t: Tables, clock: Clock): Tables {
    match job
    case CleanKeys => t.(keys := Kept(t.keys, clock.now - 24 * HOUR))
    case CleanRevoked => t.(revoked := Kept(t.revoked, clock.now - 15 * HOUR))
    case CleanAudits => t.(audits := Kept(t.audits, clock.yearAgo))
    case _ => t.(rows := RowsAfter(job, t.rows, clock.day))
  }

  function Differences(before: seq<Membership>, after: seq<Membership>): nat
    requires |before| == |after|
  {
    if before == [] then 0
    else (if before[0] != after[0] then 1 else 0) + Differences(before[1..], after[1..])
  }

  // RowsAffected of the statement.
  function Affected(job: Job, t: Tables, clock: Clock): nat {
    var after := TablesAfter(job, t, clock);
    match job
    case CleanKeys => |t.keys| - |after.keys|
    case CleanRevoked => |t.revoked| - |after.revoked|
    case CleanAudits => |t.audits| - |after.audits|
    case _ => Differences(t.rows, after.rows)
  }

  function Failed(stats: Stats, job: Job): Stats {
    stats.(errors := stats.errors + [job])
  }

  function Counted(stats: Stats, job: Job, count: nat): Stats {
    stats.(counts := stats.counts[job := count])
  }

  // The remaining steps, with the statistics gathered so far.
  function RunFrom(t: Tables, clock: Clock, jobs: seq<Job>, fates: seq<Fate>, stats: Stats): (Tables, Stats)
    requires |fates| == |jobs|
    decreases |jobs|
  {
    if jobs == [] then (t, stats)
    else
      match fates[0]
      case ContextDone => (t, Failed(stats, jobs[0]))
      case Fails => RunFrom(t, clock, jobs[1..], fates[1..], Failed(stats, jobs[0]))
      case Commits =>
        RunFrom(TablesAfter(jobs[0], t, clock), clock, jobs[1..], fates[1..],
                Counted(stats, jobs[0], Affected(jobs[0], t, clock)))
  }

  const CLEAN: Stats := Stats(map[], [])

  class Maintenance {
    var tables: Tables

    constructor (t: Tables)
      ensures tables == t
    {
      tables := t;
    }

    // One helper of the repository layer inside its own transaction.
    method RunStep(job: Job, clock: Clock, fate: Fate) returns (count: nat, failed: bool)
      modifies this
      ensures failed == (fate != Commits)
      ensures failed ==> tables == old(tables)
      ensures !failed ==> tables == TablesAfter(job, old(tables), clock) && count == Affected(job, old(tables), clock)
    {
      count, failed := 0, fate != Commits;
      if !failed {
        count := Affected(job, tables, clock);
        tables := TablesAfter(job, tables, clock);
      }
    }

    method RunExpiry(clock: Clock, fates: seq<Fate>) returns (stats: Stats, ok: bool)
      requires |fates| == |JOBS|
      modifies this
      ensures (tables, stats) == RunFrom(old(tables), clock, JOBS, fates, CLEAN)
      ensures ok <==> stats.errors == []
    {
      stats := CLEAN;
      ok := true;
      var steps := JOBS;
      var k := 0;
      while k < |steps|
        invariant k <= |steps| == |fates|
        invariant RunFrom(tables, clock, steps[k..], fates[k..], stats) ==
          RunFrom(old(tables), clock, steps, fates, CLEAN)
        invariant ok <==> stats.errors == []
      {
        assert steps[k..][1..] == steps[k + 1..] && fates[k..][1..] == fates[k + 1..];
        if fates[k] == ContextDone {
          stats, ok := Failed(stats, steps[k]), false;
          break;
        }
        var count, failed := RunStep(steps[k], clock, fates[k]);
        if failed {
          stats, ok := Failed(stats, steps[k]), false;
        } else {
          stats := Counted(stats, steps[k], count);
        }
        k := k + 1;
      }
    }
  }

  // ---- whatever fails --------------------------------------------------

  lemma RowJobKeepsTerm(job: Job, m: Membership, day: Date)
    requires Admissible(m)
    ensures var b := RowAfter(job, m, day);
      b.start == m.start && b.end == m.end && b.member == m.member && b.plan == m.plan && Admissible(b) &&
        (b.Live() ==> m.Live())
  {
  }

  predicate AllAdmissible(rows: seq<Membership>) {
    forall i :: 0 <= i < |rows| ==> Admissible(rows[i])
  }

  lemma JobKeepsConstraints(job: Job, rows: seq<Membership>, day: Date)
    requires AllAdmissible(rows) && NoOverlap(rows)
    ensures AllAdmissible(RowsAfter(job, rows, day)) && NoOverlap(RowsAfter(job, rows, day))
  {
    var after := RowsAfter(job, rows, day);
    forall i | 0 <= i < |rows|
      ensures Admissible(after[i])
    {
      RowJobKeepsTerm(job, rows[i], day);
    }
    forall i, j | 0 <= i < j < |rows|
      ensures Compatible(after[i], after[j])
    {
      assert Compatible(rows[i], rows[j]);
      RowJobKeepsTerm(job, rows[i], day);
      RowJobKeepsTerm(job, rows[j], day);
    }
  }

  // The steps whose effects stay: those that committed before the run was cut off.
  function Survivors(jobs: seq<Job>, fates: seq<Fate>): seq<Job>
    requires |fates| == |jobs|
  {
    if jobs == [] || fates[0] == ContextDone then []
    else (if fates[0] == Commits then [jobs[0]] else []) + Survivors(jobs[1..], fates[1..])
  }

  function InOrder(t: Tables, clock: Clock, jobs: seq<Job>): Tables
    decreases |jobs|
  {
    if jobs == [] then t else InOrder(TablesAfter(jobs[0], t, clock), clock, jobs[1..])
  }

  predicate NoFault(fates: seq<Fate>) {
    forall k :: 0 <= k < |fates| ==> fates[k] == Commits
  }

  // A run with faults has the effect of its surviving steps alone, in their order,
  // and reports an error exactly when some step did not commit.
  lemma {:induction false} FaultsOnlySkip(t: Tables, clock: Clock, jobs: seq<Job>, fates: seq<Fate>, stats: Stats)
    requires |fates| == |jobs|
    ensures RunFrom(t, clock, jobs, fates, stats).0 == InOrder(t, clock, Survivors(jobs, fates))
    ensures RunFrom(t, clock, jobs, fates, stats).1.errors == [] <==> stats.errors == [] && NoFault(fates)
    decreases |jobs|
  {
    if jobs != [] {
      assert NoFault(fates) <==> fates[0] == Commits && NoFault(fates[1..]) by {
        assert fates == [fates[0]] + fates[1..];
      }
      if fates[0] == Commits {
        var next := TablesAfter(jobs[0], t, clock);
        FaultsOnlySkip(next, clock, jobs[1..], fates[1..], Counted(stats, jobs[0], Affected(jobs[0], t, clock)));
        assert Survivors(jobs, fates)[1..] == Survivors(jobs[1..], fates[1..]);
      } else if fates[0] == Fails {
        FaultsOnlySkip(t, clock, jobs[1..], fates[1..], Failed(stats, jobs[0]));
        assert Survivors(jobs, fates) == Survivors(jobs[1..], fates[1..]);
      }
    }
  }

  // Whatever subset of the steps ran, the database accepts what they wrote.
  lemma {:induction false} AnyStepsAreSafe(t: Tables, clock: Clock, jobs: seq<Job>)
    requires AllAdmissible(t.rows) && NoOverlap(t.rows)
    ensures AllAdmissible(InOrder(t, clock, jobs).rows) && NoOverlap(InOrder(t, clock, jobs).rows)
    decreases |jobs|
  {
    if jobs != [] {
      JobKeepsConstraints(jobs[0], t.rows, clock.day);
      AnyStepsAreSafe(TablesAfter(jobs[0], t, clock), clock, jobs[1..]);
    }
  }

  // ---- when nothing fails ----------------------------------------------

  function AllRan(t: Tables, clock: Clock): Tables {
    Tables(seq(|t.rows|, i requires 0 <= i < |t.rows| => BatchRow(t.rows[i], clock.day)),
           Kept(t.keys, clock.now - 24 * HOUR), Kept(t.revoked, clock.now - 15 * HOUR), Kept(t.audits, clock.yearAgo))
  }

  lemma CleanRun(t: Tables, clock: Clock)
    ensures InOrder(t, clock, JOBS) == AllRan(t, clock)
  {
    var r1, r2, r3, r4, r5 := JOBS[1..], JOBS[2..], JOBS[3..], JOBS[4..], JOBS[5..];
    assert r1[1..] == r2 && r2[1..] == r3 && r3[1..] == r4 && r4[1..] == r5 && r5[1..] == [];
    var t1 := TablesAfter(Expire, t, clock);
    var t2 := TablesAfter(Reactivate, t1, clock);
    var t3 := TablesAfter(Schedule, t2, clock);
    assert t3.rows == AllRan(t, clock).rows;
    Unfold(t, clock, JOBS);
    Unfold(t1, clock, r1);
    Unfold(t2, clock, r2);
    Unfold(t3, clock, r3);
    Unfold(TablesAfter(CleanKeys, t3, clock), clock, r4);
    Unfold(TablesAfter(CleanRevoked, TablesAfter(CleanKeys, t3, clock), clock), clock, r5);
  }

  lemma Unfold(t: Tables, clock: Clock, jobs: seq<Job>)
    requires jobs != []
    ensures InOrder(t, clock, jobs) == InOrder(TablesAfter(jobs[0], t, clock), clock, jobs[1..])
  {
  }

  // After two runs on a day no rule of the batch applies to the row any more. One
  // run may not be enough: a pause that ends uncovers a term that is over.
  lemma RowSettles(m: Membership, day: Date)
    requires Admissible(m)
    ensures var b := BatchRow(BatchRow(m, day), day);
      ExpireRow(b, day) == b && ReactivateRow(b, day) == b && ScheduleRow(b, day) == b
    ensures (exists job :: RowAfter(job, BatchRow(m, day), day) != BatchRow(m, day)) <==>
      m.status.Paused? && m.pause.value.until < day && m.end < day
  {
    var b := BatchRow(m, day);
    if m.status.Paused? && m.pause.value.until < day && m.end < day {
      assert RowAfter(Expire, b, day) != b;
    }
  }

  lemma {:induction false} NothingToDelete(times: seq<Instant>, cutoff: Instant)
    requires forall k :: 0 <= k < |times| ==> times[k] >= cutoff
    ensures Kept(times, cutoff) == times
  {
    if times != [] {
      NothingToDelete(times[1..], cutoff);
      assert times == [times[0]] + times[1..];
    }
  }

  lemma KeptTwice(times: seq<Instant>, cutoff: Instant)
    ensures Kept(Kept(times, cutoff), cutoff) == Kept(times, cutoff)
  {
    var kept := Kept(times, cutoff);
    forall k | 0 <= k < |kept|
      ensures kept[k] >= cutoff
    {
      assert kept[k] in kept;
    }
    NothingToDelete(kept, cutoff);
  }

  lemma {:induction false} NoDifferences(before: seq<Membership>, after: seq<Membership>)
    requires before == after
    ensures Differences(before, after) == 0
  {
    if before != [] {
      NoDifferences(before[1..], after[1..]);
    }
  }

  // ---- what the counters count -------------------------------------------

  // How many elements have a property.
  function Count<T>(s: seq<T>, f: T -> bool): nat {
    if s == [] then 0 else (if f(s[0]) then 1 else 0) + Count(s[1..], f)
  }

  lemma {:induction false} DifferencesAre(before: seq<Membership>, after: seq<Membership>, f: Membership -> bool)
    requires |before| == |after|
    requires forall i :: 0 <= i < |before| ==> (before[i] != after[i] <==> f(before[i]))
    ensures Differences(before, after) == Count(before, f)
  {
    if before != [] {
      DifferencesAre(before[1..], after[1..], f);
    }
  }

  lemma {:induction false} DeletedAre(times: seq<Instant>, cutoff: Instant)
    ensures |times| - |Kept(times, cutoff)| == Count(times, (t: Instant) => t < cutoff)
  {
    if times != [] {
      DeletedAre(times[1..], cutoff);
    }
  }

  // The first three counters count the active rows past their term, the paused rows past
  // their window, and the active rows whose pause starts on the day.
  lemma RewrittenAreDue(t: Tables, clock: Clock)
    ensures Affected(Expire, t, clock) == Count(t.rows, (m: Membership) => m.status == Active && m.end < clock.day)
    ensures Affected(Reactivate, t, clock) ==
      Count(t.rows, (m: Membership) => m.status == Paused && m.pause.Some? && m.pause.value.until < clock.day)
    ensures Affected(Schedule, t, clock) ==
      Count(t.rows, (m: Membership) => m.status == Active && m.pause.Some? && m.pause.value.from == clock.day)
  {
    DifferencesAre(t.rows, RowsAfter(Expire, t.rows, clock.day),
                   (m: Membership) => m.status == Active && m.end < clock.day);
    DifferencesAre(t.rows, RowsAfter(Reactivate, t.rows, clock.day),
                   (m: Membership) => m.status == Paused && m.pause.Some? && m.pause.value.until < clock.day);
    DifferencesAre(t.rows, RowsAfter(Schedule, t.rows, clock.day),
                   (m: Membership) => m.status == Active && m.pause.Some? && m.pause.value.from == clock.day);
  }

  // The others count the keys older than a day, the revocations older than fifteen hours
  // and the audit rows older than a year.
  lemma DeletedAreOld(t: Tables, clock: Clock)
    ensures Affected(CleanKeys, t, clock) == Count(t.keys, (at: Instant) => at < clock.now - 86_400)
    ensures Affected(CleanRevoked, t, clock) == Count(t.revoked, (at: Instant) => at < clock.now - 54_000)
    ensures Affected(CleanAudits, t, clock) == Count(t.audits, (at: Instant) => at < clock.yearAgo)
  {
    DeletedAre(t.keys, clock.now - 24 * HOUR);
    DeletedAre(t.revoked, clock.now - 15 * HOUR);
    DeletedAre(t.audits, clock.yearAgo);
  }

  predicate Distinct(jobs: seq<Job>) { forall i, j :: 0 <= i < j < |jobs| ==> jobs[i] != jobs[j] }

  // Counters already set are not set again by other steps.
  lemma {:induction false} CountStays(t: Tables, clock: Clock, jobs: seq<Job>, fates: seq<Fate>, stats: Stats, job: Job)
    requires |fates| == |jobs| && job !in jobs
    ensures var counts := RunFrom(t, clock, jobs, fates, stats).1.counts;
      (job in counts <==> job in stats.counts) && (job in counts ==> counts[job] == stats.counts[job])
    decreases |jobs|
  {
    if jobs != [] && fates[0] == Commits {
      var next := Counted(stats, jobs[0], Affected(jobs[0], t, clock));
      CountStays(TablesAfter(jobs[0], t, clock), clock, jobs[1..], fates[1..], next, job);
    } else if jobs != [] && fates[0] == Fails {
      CountStays(t, clock, jobs[1..], fates[1..], Failed(stats, jobs[0]), job);
    }
  }

  // No earlier step saw the context cancelled.
  predicate Uncancelled(fates: seq<Fate>, k: nat)
    requires k <= |fates|
  {
    forall l :: 0 <= l < k ==> fates[l] != ContextDone
  }

  lemma UncancelledLater(fates: seq<Fate>, k: nat)
    requires 1 <= k <= |fates|
    ensures Uncancelled(fates, k) <==> fates[0] != ContextDone && Uncancelled(fates[1..], k - 1)
  {
    assert forall l :: 1 <= l < k ==> fates[l] == fates[1..][l - 1];
  }

  // A step that committed reports the rows it affected, as the steps before it left the
  // tables; a step that did not commit reports nothing.
  lemma {:induction false} CountsAreOfTheirStep(t: Tables, clock: Clock, jobs: seq<Job>, fates: seq<Fate>, stats: Stats,
                                                k: nat)
    requires |fates| == |jobs| && Distinct(jobs) && k < |jobs| && jobs[k] !in stats.counts
    ensures var counts := RunFrom(t, clock, jobs, fates, stats).1.counts;
      if fates[k] == Commits && Uncancelled(fates, k)
      then jobs[k] in counts
        && counts[jobs[k]] == Affected(jobs[k], InOrder(t, clock, Survivors(jobs[..k], fates[..k])), clock)
      else jobs[k] !in counts
    decreases |jobs|
  {
    var job := jobs[0];
    assert job !in jobs[1..];
    if k == 0 {
      if fates[0] == Commits {
        CountStays(TablesAfter(job, t, clock), clock, jobs[1..], fates[1..],
                   Counted(stats, job, Affected(job, t, clock)), job);
      } else if fates[0] == Fails {
        CountStays(t, clock, jobs[1..], fates[1..], Failed(stats, job), job);
      }
    } else if fates[0] != ContextDone {
      UncancelledLater(fates, k);
      assert jobs[..k][1..] == jobs[1..][..k - 1] && fates[..k][1..] == fates[1..][..k - 1];
      if fates[0] == Commits {
        var more := Survivors(jobs[1..][..k - 1], fates[1..][..k - 1]);
        assert ([job] + more)[1..] == more;
        CountsAreOfTheirStep(TablesAfter(job, t, clock), clock, jobs[1..], fates[1..],
                             Counted(stats, job, Affected(job, t, clock)), k - 1);
      } else {
        assert Survivors(jobs[..k], fates[..k]) == Survivors(jobs[1..][..k - 1], fates[1..][..k - 1]);
        CountsAreOfTheirStep(t, clock, jobs[1..], fates[1..], Failed(stats, job), k - 1);
      }
    }
  }

  // From any stored state, the third run of a day changes nothing and every one
  // of its six counters is zero.
  lemma ThirdRunIsIdle(t: Tables, clock: Clock, job: Job)
    requires AllAdmissible(t.rows)
    ensures var settled := AllRan(AllRan(t, clock), clock);
      && AllRan(settled, clock) == settled
      && TablesAfter(job, settled, clock) == settled
      && Affected(job, settled, clock) == 0
  {
    var settled := AllRan(AllRan(t, clock), clock);
    forall i | 0 <= i < |t.rows|
      ensures RowAfter(job, settled.rows[i], clock.day) == settled.rows[i] &&
        BatchRow(settled.rows[i], clock.day) == settled.rows[i]
    {
      RowSettles(t.rows[i], clock.day);
    }
    KeptTwice(AllRan(t, clock).keys, clock.now - 24 * HOUR);
    KeptTwice(AllRan(t, clock).revoked, clock.now - 15 * HOUR);
    KeptTwice(AllRan(t, clock).audits, clock.yearAgo);
    assert RowsAfter(job, settled.rows, clock.day) == settled.rows;
    assert AllRan(settled, clock).rows == settled.rows;
    NoDifferences(settled.rows, RowsAfter(job, settled.rows, clock.day));
  }

  // ---- at midnight -----------------------------------------------------

  // A scheduled pause becomes effective on its day, and at no other midnight.
  lemma ScheduledPauseStarts(db: Db, i: int)
    requires CalendarOk(db) && 0 <= i < |db.rows| && PauseScheduled(db.rows[i], db.today)
    ensures var m := Step(db, MidnightReq).db.rows[i];
      m == db.rows[i].(status := if db.rows[i].pause.value.from == db.today + 1 then Paused else Active)
  {
    assert RowOk(db.rows[i], db.today);
  }

  // The only active rows a midnight leaves past their term are those whose pause
  // ran, alone, over the final day.
  lemma StaleAfterMidnight(db: Db, i: int)
    requires CalendarOk(db) && 0 <= i < |db.rows|
    ensures var m := Step(db, MidnightReq).db.rows[i];
      (m.status.Active? && m.end < db.today + 1) <==>
        (db.rows[i].status.Paused? && db.rows[i].pause == Some(Window(db.today, db.today)) &&
          db.rows[i].end == db.today)
  {
    assert RowOk(db.rows[i], db.today);
  }
}
