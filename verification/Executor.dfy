// Executor.dfy: the step executor, which drives the steps of a phase one at a time
// through a gate with at most three attempts each.
module Executor {
  import opened Prelude

  const MAX_RETRIES := 3

  // Any other status in the index file, such as "deferred", is parked.
  datatype Status = Pending | Completed | Failed | Blocked | Parked

  datatype Step = Step(num: int, status: Status)

  // What an attempt ends in: the gate's verdict, or the child marking its step blocked.
  datatype Verdict = Pass | Retry | Block | ChildBlocked

  datatype GateCall = GateCall(num: int, verdict: Verdict)

  // Exit code 1 and 2 of the process.
  datatype Exit = Normal | ExitError | ExitBlocked

  // The verdict of the n-th attempt of the run.
  type Gate = nat -> Verdict

  // ---- the index file ----------------------------------------------------

  // Every entry with the number is updated.
  function Mark(steps: seq<Step>, num: int, status: Status): (r: seq<Step>)
    ensures |r| == |steps|
    ensures forall i :: 0 <= i < |r| ==> r[i] == if steps[i].num == num then Step(num, status) else steps[i]
  {
    seq(|steps|, i requires 0 <= i < |steps| => if steps[i].num == num then Step(num, status) else steps[i])
  }

  function FirstPending(steps: seq<Step>): (i: nat)
    ensures i <= |steps| && (i < |steps| ==> steps[i].status.Pending?)
    ensures forall j :: 0 <= j < i ==> !steps[j].status.Pending?
  {
    if steps == [] || steps[0].status.Pending? then 0
    else
      var i := FirstPending(steps[1..]);
      assert forall j :: 1 <= j < i + 1 ==> steps[j] == steps[1..][j - 1];
      i + 1
  }

  // The indices of the pending steps.
  function PendingAt(steps: seq<Step>): set<int> {
    set i | 0 <= i < |steps| && steps[i].status.Pending?
  }

  lemma MarkingShrinksPending(steps: seq<Step>, i: nat, status: Status)
    requires i < |steps| && steps[i].status.Pending? && !status.Pending?
    ensures PendingAt(Mark(steps, steps[i].num, status)) < PendingAt(steps)
    ensures |PendingAt(Mark(steps, steps[i].num, status))| < |PendingAt(steps)|
  {
    var after := PendingAt(Mark(steps, steps[i].num, status));
    assert i in PendingAt(steps) && i !in after;
    SmallerSet(after, PendingAt(steps), i);
  }

  lemma SmallerSet(a: set<int>, b: set<int>, x: int)
    requires a <= b && x in b - a
    ensures |a| < |b|
  {
    assert a + (b - a) == b && a !! b - a;
  }

  // ---- one step ----------------------------------------------------------

  // The status a last attempt writes.
  function EndOf(v: Verdict): Status {
    match v
    case Pass => Completed
    case Retry => Failed
    case Block => Blocked
    case ChildBlocked => Blocked
  }

  // How the attempts of one step end, starting with attempt number k.
  function Attempts(gate: Gate, n: nat, k: nat): (r: (Status, nat))
    requires 1 <= k <= MAX_RETRIES
    ensures r.0 in {Completed, Failed, Blocked} && 1 <= r.1 <= MAX_RETRIES - k + 1
    ensures forall a :: n <= a < n + r.1 - 1 ==> gate(a).Retry?
    ensures r.0.Completed? <==> gate(n + r.1 - 1).Pass?
    ensures r.0.Failed? <==> gate(n + r.1 - 1).Retry?
    ensures r.0.Failed? ==> r.1 == MAX_RETRIES - k + 1
    decreases MAX_RETRIES - k
  {
    if gate(n).Retry? && k < MAX_RETRIES then
      var (status, more) := Attempts(gate, n + 1, k + 1);
      (status, more + 1)
    else (EndOf(gate(n)), 1)
  }

  // The first entry with the number is marked blocked: the executor stops after the
  // child, before the gate. With repeated numbers this can be an earlier entry.
  predicate AlreadyBlocked(steps: seq<Step>, num: int) {
    steps != [] &&
    if steps[0].num == num then steps[0].status.Blocked? else AlreadyBlocked(steps[1..], num)
  }

  function CallLog(gate: Gate, n: nat, count: nat, num: int): (log: seq<GateCall>)
    ensures |log| == count && forall a :: 0 <= a < count ==> log[a] == GateCall(num, gate(n + a))
  {
    seq(count, a requires 0 <= a < count => GateCall(num, gate(n + a)))
  }

  function ExitOf(status: Status): Exit {
    if status.Failed? then ExitError else if status.Blocked? then ExitBlocked else Normal
  }

  // ---- the whole run -----------------------------------------------------

  datatype Run = Run(steps: seq<Step>, log: seq<GateCall>, exit: Exit)

  // While something is pending, the first pending step is attempted; a step that does
  // not complete ends the process.
  function RunAll(steps: seq<Step>, gate: Gate, log: seq<GateCall>): Run
    decreases |PendingAt(steps)|
  {
    var i := FirstPending(steps);
    if i == |steps| then Run(steps, log, Normal)
    else
      var num := steps[i].num;
      if AlreadyBlocked(steps, num) then Run(steps, log + [GateCall(num, ChildBlocked)], ExitBlocked)
      else
        var (status, count) := Attempts(gate, |log|, 1);
        var after, more := Mark(steps, num, status), log + CallLog(gate, |log|, count, num);
        if status.Completed? then
          MarkingShrinksPending(steps, i, Completed);
          RunAll(after, gate, more)
        else Run(after, more, ExitOf(status))
  }

  // The phase is closed only when every step is completed.
  predicate AllCompleted(steps: seq<Step>) { forall i :: 0 <= i < |steps| ==> steps[i].status.Completed? }

  // ---- the executor as it runs -------------------------------------------

  class StepExecutor {
    var steps: seq<Step>
    var log: seq<GateCall>
    var top: Option<Status>

    constructor (steps: seq<Step>)
      ensures this.steps == steps && log == [] && top == None
    {
      this.steps, log, top := steps, [], None;
    }

    method Settle(num: int, status: Status)
      modifies this`steps, this`top
      ensures steps == Mark(old(steps), num, status)
      ensures top == if status.Completed? then old(top) else Some(status)
    {
      steps := Mark(steps, num, status);
      if status != Completed {
        top := Some(status);
      }
    }

    method CallGate(num: int, gate: Gate) returns (verdict: Verdict)
      modifies this`log
      ensures verdict == gate(|old(log)|) && log == old(log) + [GateCall(num, verdict)]
    {
      verdict := gate(|log|);
      log := log + [GateCall(num, verdict)];
    }

    // One attempt; None when the step stays pending for another.
    method TryOnce(num: int, gate: Gate, attempt: nat) returns (ended: Option<Exit>)
      requires !AlreadyBlocked(steps, num)
      modifies this
      ensures var v := gate(|old(log)|);
              && log == old(log) + [GateCall(num, v)]
              && (v.Retry? && attempt < MAX_RETRIES ==>
                    ended == None && steps == Mark(old(steps), num, Pending) && top == old(top))
              && (!(v.Retry? && attempt < MAX_RETRIES) ==>
                    && ended == Some(ExitOf(EndOf(v))) && steps == Mark(old(steps), num, EndOf(v))
                    && top == if v.Pass? then old(top) else Some(EndOf(v)))
    {
      var verdict := CallGate(num, gate);
      if verdict.ChildBlocked? || verdict.Block? {
        Settle(num, Blocked);
        return Some(ExitBlocked);
      }
      if verdict.Pass? {
        Settle(num, Completed);
        return Some(Normal);
      }
      if attempt < MAX_RETRIES {
        steps := Mark(steps, num, Pending);
        return None;
      }
      Settle(num, Failed);
      return Some(ExitError);
    }

    method ExecuteSingleStep(num: int, gate: Gate) returns (exit: Exit)
      modifies this
      ensures AlreadyBlocked(old(steps), num) ==>
        && steps == old(steps) && log == old(log) + [GateCall(num, ChildBlocked)]
        && exit == ExitBlocked && top == Some(Blocked)
      ensures !AlreadyBlocked(old(steps), num) ==>
        var (status, count) := Attempts(gate, |old(log)|, 1);
        && steps == Mark(old(steps), num, status)
        && log == old(log) + CallLog(gate, |old(log)|, count, num)
        && exit == ExitOf(status)
        && top == if status.Completed? then old(top) else Some(status)
    {
      if AlreadyBlocked(steps, num) {
        log := log + [GateCall(num, ChildBlocked)];
        top := Some(Blocked);
        return ExitBlocked;
      }
      exit := Attempt(num, gate);
    }

    // The loop over the attempts.
    method Attempt(num: int, gate: Gate) returns (exit: Exit)
      requires !AlreadyBlocked(steps, num)
      modifies this
      ensures var (status, count) := Attempts(gate, |old(log)|, 1);
        && steps == Mark(old(steps), num, status)
        && log == old(log) + CallLog(gate, |old(log)|, count, num)
        && exit == ExitOf(status)
        && top == if status.Completed? then old(top) else Some(status)
    {
      ghost var before, n := log, |log|;
      EmptyCallLog(gate, log, num);
      var attempt := 1;
      while true
        invariant 1 <= attempt <= MAX_RETRIES && RetriesUpTo(gate, n, attempt)
        invariant log == before + CallLog(gate, n, attempt - 1, num)
        invariant SameButFor(old(steps), steps, num) && top == old(top)
        invariant !AlreadyBlocked(steps, num)
        decreases MAX_RETRIES - attempt
      {
        NextCall(gate, before, n, attempt - 1, num);
        MarkReplaces(old(steps), steps, num, EndOf(gate(|log|)));
        MarkReplaces(old(steps), steps, num, Pending);
        var ended := TryOnce(num, gate, attempt);
        if ended.Some? {
          AttemptsEnd(gate, n, attempt);
          return ended.value;
        }
        attempt := attempt + 1;
      }
    }

    method ExecuteAllSteps(gate: Gate) returns (exit: Exit)
      modifies this
      ensures Run(steps, log, exit) == RunAll(old(steps), gate, old(log))
      ensures top ==
        match exit
        case Normal => old(top)
        case ExitError => Some(Failed)
        case ExitBlocked => Some(Blocked)
    {
      while true
        invariant top == old(top)
        invariant RunAll(steps, gate, log) == RunAll(old(steps), gate, old(log))
        decreases |PendingAt(steps)|
      {
        var i := FirstPending(steps);
        if i == |steps| {
          return Normal;
        }
        MarkingShrinksPending(steps, i, Completed);
        exit := ExecuteSingleStep(steps[i].num, gate);
        if exit != Normal {
          return exit;
        }
      }
    }

    method Finalize() returns (closed: bool)
      modifies this`top
      ensures closed <==> forall i :: 0 <= i < |steps| ==> steps[i].status == Completed
      ensures top == if closed then Some(Completed) else old(top)
    {
      closed := true;
      for i := 0 to |steps|
        invariant closed == AllCompleted(steps[..i])
      {
        closed := closed && steps[i].status.Completed?;
        assert steps[..i + 1] == steps[..i] + [steps[i]];
      }
      assert steps[..|steps|] == steps;
      if closed {
        top := Some(Completed);
      }
    }

    // Refuses to start while the last step that is not pending is failed or blocked.
    method CheckBlockers() returns (exit: Exit)
      ensures var k := LastSettled(steps);
              exit == if k >= 0 && steps[k].status == Failed then ExitError
                      else if k >= 0 && steps[k].status == Blocked then ExitBlocked
                      else Normal
    {
      var i := |steps| - 1;
      while i >= 0
        invariant -1 <= i < |steps|
        invariant LastSettled(steps) == LastSettled(steps[..i + 1])
      {
        assert steps[..i + 1][..i] == steps[..i];
        if steps[i].status.Failed? { return ExitError; }
        if steps[i].status.Blocked? { return ExitBlocked; }
        if !steps[i].status.Pending? { return Normal; }
        i := i - 1;
      }
      return Normal;
    }

    // A phase from start to end.
    method RunPhase(gate: Gate) returns (exit: Exit)
      modifies this
      ensures exit == (if PhaseBlocked(old(steps)) then ExitOf(old(steps)[LastSettled(old(steps))].status)
                       else RunAll(old(steps), gate, old(log)).exit)
      ensures (steps, log) == if PhaseBlocked(old(steps)) then (old(steps), old(log))
                              else (RunAll(old(steps), gate, old(log)).steps, RunAll(old(steps), gate, old(log)).log)
      ensures exit.Normal? && (forall i :: 0 <= i < |steps| ==> steps[i].status == Completed) ==> top == Some(Completed)
      ensures top == Some(Completed) && old(top) != Some(Completed) ==>
        exit.Normal? && forall i :: 0 <= i < |steps| ==> steps[i].status == Completed
    {
      exit := CheckBlockers();
      if exit != Normal {
        return;
      }
      exit := ExecuteAllSteps(gate);
      if exit == Normal {
        var _ := Finalize();
      }
    }
  }

  // The attempts before the k-th all ended in a retry.
  ghost predicate RetriesUpTo(gate: Gate, n: nat, k: nat) { forall a :: n <= a < n + k - 1 ==> gate(a).Retry? }

  lemma {:induction false} AttemptsFrom(gate: Gate, n: nat, j: nat, k: nat)
    requires 1 <= j <= k <= MAX_RETRIES && RetriesUpTo(gate, n, k) && !(gate(n + k - 1).Retry? && k < MAX_RETRIES)
    ensures Attempts(gate, n + j - 1, j) == (EndOf(gate(n + k - 1)), k - j + 1)
    decreases k - j
  {
    if j < k {
      assert gate(n + j - 1).Retry?;
      AttemptsFrom(gate, n, j + 1, k);
    }
  }

  lemma AttemptsEnd(gate: Gate, n: nat, k: nat)
    requires 1 <= k <= MAX_RETRIES && RetriesUpTo(gate, n, k) && !(gate(n + k - 1).Retry? && k < MAX_RETRIES)
    ensures Attempts(gate, n, 1) == (EndOf(gate(n + k - 1)), k)
  {
    AttemptsFrom(gate, n, 1, k);
  }

  // The lists differ at most in the status of the entries with the number.
  predicate SameButFor(before: seq<Step>, steps: seq<Step>, num: int) {
    && |steps| == |before|
    && forall i :: 0 <= i < |steps| ==>
         steps[i].num == before[i].num && (before[i].num != num ==> steps[i] == before[i])
  }

  // A later mark of the number replaces an earlier one.
  lemma MarkReplaces(before: seq<Step>, steps: seq<Step>, num: int, status: Status)
    requires SameButFor(before, steps, num)
    ensures Mark(steps, num, status) == Mark(before, num, status)
    ensures SameButFor(before, Mark(steps, num, status), num)
    ensures !status.Blocked? ==> !AlreadyBlocked(Mark(steps, num, status), num)
  {
    MarkedStatus(steps, num, num, status);
  }

  lemma {:induction false} MarkedStatus(steps: seq<Step>, num: int, other: int, status: Status)
    ensures other == num && !status.Blocked? ==> !AlreadyBlocked(Mark(steps, num, status), other)
    ensures other != num ==> (AlreadyBlocked(Mark(steps, num, status), other) <==> AlreadyBlocked(steps, other))
    decreases |steps|
  {
    if steps != [] {
      MarkedStatus(steps[1..], num, other, status);
      assert Mark(steps, num, status)[1..] == Mark(steps[1..], num, status);
    }
  }

  lemma EmptyCallLog(gate: Gate, log: seq<GateCall>, num: int)
    ensures log + CallLog(gate, |log|, 0, num) == log
  {
  }

  lemma NextCall(gate: Gate, log: seq<GateCall>, n: nat, k: nat, num: int)
    requires n == |log|
    ensures log + CallLog(gate, n, k, num) + [GateCall(num, gate(n + k))] == log + CallLog(gate, n, k + 1, num)
  {
  }

  function LastSettled(steps: seq<Step>): (k: int)
    ensures -1 <= k < |steps|
    ensures k >= 0 ==> !steps[k].status.Pending?
    ensures forall i :: k < i < |steps| ==> steps[i].status.Pending?
  {
    if steps == [] then -1
    else if !steps[|steps| - 1].status.Pending? then |steps| - 1
    else
      var k := LastSettled(steps[..|steps| - 1]);
      k
  }

  predicate PhaseBlocked(steps: seq<Step>) {
    LastSettled(steps) >= 0 && !ExitOf(steps[LastSettled(steps)].status).Normal?
  }

  // ---- what a run does ---------------------------------------------------

  // An entry with the number is pending before the cut.
  predicate Attempted(steps: seq<Step>, cut: nat, num: int)
    requires cut <= |steps|
  {
    exists i :: 0 <= i < cut && steps[i] == Step(num, Pending)
  }

  // The status of an entry after a run that stopped at the cut with the status `last`.
  function StatusAfter(before: seq<Step>, cut: nat, last: Status, s: Step): Status
    requires cut <= |before|
  {
    if cut < |before| && s.num == before[cut].num then (if AlreadyBlocked(before, s.num) then s.status else last)
    else if Attempted(before, cut, s.num) then Completed
    else s.status
  }

  // The numbers pending before the cut are completed, the number at the cut is failed or
  // blocked (or was blocked already, in an earlier entry), and every other entry is as
  // it was.
  ghost predicate StopsAt(before: seq<Step>, r: Run, cut: nat, last: Status) {
    && |r.steps| == |before| && cut <= |before|
    && (forall j :: 0 <= j < |before| ==> r.steps[j] == Step(before[j].num, StatusAfter(before, cut, last, before[j])))
    && (cut == |before| ==> r.exit == Normal)
    && (cut < |before| ==>
          && before[cut].status.Pending? && !Attempted(before, cut, before[cut].num)
          && r.exit == (if AlreadyBlocked(before, before[cut].num) then ExitBlocked else ExitOf(last))
          && last in {Failed, Blocked})
  }

  // Steps run in index order. A run ends with nothing pending, or at exactly one step
  // number, which is the only one it fails or blocks; what comes later is untouched.
  lemma {:induction false} RunStops(steps: seq<Step>, gate: Gate, log: seq<GateCall>)
    ensures exists cut, last :: StopsAt(steps, RunAll(steps, gate, log), cut, last)
    decreases |PendingAt(steps)|
  {
    var i := FirstPending(steps);
    var r := RunAll(steps, gate, log);
    if i == |steps| {
      assert StopsAt(steps, r, i, Failed);
    } else if AlreadyBlocked(steps, steps[i].num) {
      assert StopsAt(steps, r, i, Blocked);
    } else {
      var (status, count) := Attempts(gate, |log|, 1);
      var after := Mark(steps, steps[i].num, status);
      if status.Completed? {
        MarkingShrinksPending(steps, i, Completed);
        RunStops(after, gate, log + CallLog(gate, |log|, count, steps[i].num));
        var cut, last :| StopsAt(after, r, cut, last);
        CutCarries(steps, i, after, r, cut, last);
      } else {
        assert StopsAt(steps, r, i, status);
      }
    }
  }

  // Completing the first pending number leaves the other pending entries.
  lemma AttemptedAfter(steps: seq<Step>, i: nat, cut: nat, num: int)
    requires i == FirstPending(steps) < cut <= |steps|
    ensures Attempted(steps, cut, num) <==>
      num == steps[i].num || Attempted(Mark(steps, steps[i].num, Completed), cut, num)
  {
    var after := Mark(steps, steps[i].num, Completed);
    if Attempted(steps, cut, num) && num != steps[i].num {
      var k :| 0 <= k < cut && steps[k] == Step(num, Pending);
      assert after[k] == Step(num, Pending);
    }
    if Attempted(after, cut, num) {
      var k :| 0 <= k < cut && after[k] == Step(num, Pending);
      assert steps[k] == Step(num, Pending);
    }
    if num == steps[i].num { assert steps[i] == Step(num, Pending); }
  }

  lemma StatusCarries(steps: seq<Step>, i: nat, after: seq<Step>, cut: nat, last: Status, j: nat)
    requires i == FirstPending(steps) < cut <= |steps| && j < |steps|
    requires after == Mark(steps, steps[i].num, Completed)
    requires cut < |steps| ==> after[cut].status.Pending?
    ensures StatusAfter(after, cut, last, after[j]) == StatusAfter(steps, cut, last, steps[j])
  {
    AttemptedAfter(steps, i, cut, steps[j].num);
    MarkedStatus(steps, steps[i].num, steps[j].num, Completed);
    if steps[j].num == steps[i].num { NotAttemptedAgain(steps, i, cut); }
  }

  lemma NotAttemptedAgain(steps: seq<Step>, i: nat, cut: nat)
    requires i < |steps| && cut <= |steps|
    ensures !Attempted(Mark(steps, steps[i].num, Completed), cut, steps[i].num)
  {
  }

  lemma CutCarries(steps: seq<Step>, i: nat, after: seq<Step>, r: Run, cut: nat, last: Status)
    requires i == FirstPending(steps) < |steps|
    requires after == Mark(steps, steps[i].num, Completed) && StopsAt(after, r, cut, last)
    ensures StopsAt(steps, r, cut, last)
  {
    if cut < |steps| { assert after[cut].status.Pending?; }
    assert i < cut;
    forall j | 0 <= j < |steps|
      ensures r.steps[j] == Step(steps[j].num, StatusAfter(steps, cut, last, steps[j]))
    {
      assert r.steps[j] == Step(after[j].num, StatusAfter(after, cut, last, after[j]));
      StatusCarries(steps, i, after, cut, last, j);
    }
    if cut < |steps| {
      AttemptedAfter(steps, i, cut, steps[cut].num);
      MarkedStatus(steps, steps[i].num, steps[cut].num, Completed);
    }
  }

  // ---- what the log says -------------------------------------------------

  function CallsOf(log: seq<GateCall>, num: int): seq<Verdict> {
    if log == [] then []
    else
      var rest := CallsOf(log[..|log| - 1], num);
      var last := log[|log| - 1];
      if last.num == num then rest + [last.verdict] else rest
  }

  lemma {:induction false} CallsOfOthers(log: seq<GateCall>, more: seq<GateCall>, num: int)
    requires forall a :: 0 <= a < |more| ==> more[a].num != num
    ensures CallsOf(log + more, num) == CallsOf(log, num)
    decreases |more|
  {
    if more == [] {
      assert log + more == log;
    } else {
      CallsOfOthers(log, more[..|more| - 1], num);
      assert (log + more)[..|log + more| - 1] == log + more[..|more| - 1];
    }
  }

  function Verdicts(calls: seq<GateCall>): (vs: seq<Verdict>)
    ensures |vs| == |calls| && forall a :: 0 <= a < |vs| ==> vs[a] == calls[a].verdict
  {
    seq(|calls|, a requires 0 <= a < |calls| => calls[a].verdict)
  }

  lemma {:induction false} CallsOfOwn(log: seq<GateCall>, more: seq<GateCall>, num: int)
    requires forall a :: 0 <= a < |more| ==> more[a].num == num
    ensures CallsOf(log + more, num) == CallsOf(log, num) + Verdicts(more)
    decreases |more|
  {
    if more == [] {
      assert log + more == log;
      assert CallsOf(log, num) + Verdicts(more) == CallsOf(log, num);
    } else {
      CallsOfOwn(log, more[..|more| - 1], num);
      assert (log + more)[..|log + more| - 1] == log + more[..|more| - 1];
      assert Verdicts(more) == Verdicts(more[..|more| - 1]) + [more[|more| - 1].verdict];
    }
  }

  // The verdicts that lead from pending to the given status: at most three, all but the
  // last a retry, and the last what the status says.
  ghost predicate Earned(status: Status, verdicts: seq<Verdict>) {
    && 1 <= |verdicts| <= MAX_RETRIES
    && (forall a :: 0 <= a < |verdicts| - 1 ==> verdicts[a].Retry?)
    && (match status
        case Completed => verdicts[|verdicts| - 1].Pass?
        case Failed => verdicts[|verdicts| - 1].Retry? && |verdicts| == MAX_RETRIES
        case Blocked => verdicts[|verdicts| - 1].Block? || verdicts[|verdicts| - 1].ChildBlocked?
        case _ => false)
  }

  lemma OwnBlockIsEarned(gate: Gate, n: nat, num: int)
    ensures var (status, count) := Attempts(gate, n, 1); Earned(status, Verdicts(CallLog(gate, n, count, num)))
  {
    var (status, count) := Attempts(gate, n, 1);
    var vs := Verdicts(CallLog(gate, n, count, num));
    assert vs[count - 1] == gate(n + count - 1);
  }

  predicate PendingNumber(steps: seq<Step>, num: int) { Attempted(steps, |steps|, num) }

  // A number that is not pending is left alone.
  lemma {:induction false} SettledIsLeftAlone(steps: seq<Step>, gate: Gate, log: seq<GateCall>, j: nat)
    requires j < |steps| && !PendingNumber(steps, steps[j].num)
    ensures var r := RunAll(steps, gate, log);
            |r.steps| == |steps| && r.steps[j] == steps[j] && CallsOf(r.log, steps[j].num) == CallsOf(log, steps[j].num)
    decreases |PendingAt(steps)|
  {
    var i := FirstPending(steps);
    if i < |steps| {
      var num := steps[i].num;
      assert steps[i] == Step(num, Pending);
      assert num != steps[j].num;
      var (status, count) := Attempts(gate, |log|, 1);
      var block := CallLog(gate, |log|, count, num);
      var after := Mark(steps, num, status);
      CallsOfOthers(log, block, steps[j].num);
      CallsOfOthers(log, [GateCall(num, ChildBlocked)], steps[j].num);
      if status.Completed? {
        MarkingShrinksPending(steps, i, Completed);
        AttemptedAfter(steps, i, |steps|, steps[j].num);
        SettledIsLeftAlone(after, gate, log + block, j);
      }
    }
  }

  // What the gate calls made for a number in the run say about one of its entries.
  ghost predicate Explains(steps: seq<Step>, r: Run, j: nat, verdicts: seq<Verdict>)
    requires j < |steps| == |r.steps|
  {
    || (verdicts == [] && r.steps[j] == steps[j])
    || (PendingNumber(steps, steps[j].num) && Earned(r.steps[j].status, verdicts))
    || (verdicts == [ChildBlocked] && r.steps[j] == steps[j] && AlreadyBlocked(steps, steps[j].num))
  }

  // Every status a run writes is earned by the gate calls it made for that number, and
  // an entry of a number that was not attempted keeps its status.
  lemma {:induction false} StatusIsEarned(steps: seq<Step>, gate: Gate, log: seq<GateCall>, j: nat)
    requires j < |steps|
    ensures var r := RunAll(steps, gate, log);
            |r.steps| == |steps| && r.steps[j].num == steps[j].num &&
            exists vs :: CallsOf(r.log, steps[j].num) == CallsOf(log, steps[j].num) + vs && Explains(steps, r, j, vs)
    decreases |PendingAt(steps)|
  {
    var i := FirstPending(steps);
    var r := RunAll(steps, gate, log);
    var calls := CallsOf(log, steps[j].num);
    if i == |steps| {
      assert calls == calls + [] && Explains(steps, r, j, []);
    } else if steps[i].num == steps[j].num {
      OwnStepIsEarned(steps, gate, log, j);
    } else {
      var num := steps[i].num;
      var (status, count) := Attempts(gate, |log|, 1);
      var block := CallLog(gate, |log|, count, num);
      var after := Mark(steps, num, status);
      CallsOfOthers(log, block, steps[j].num);
      CallsOfOthers(log, [GateCall(num, ChildBlocked)], steps[j].num);
      MarkedStatus(steps, num, steps[j].num, status);
      if !AlreadyBlocked(steps, num) && status.Completed? {
        MarkingShrinksPending(steps, i, Completed);
        AttemptedAfter(steps, i, |steps|, steps[j].num);
        StatusIsEarned(after, gate, log + block, j);
        var vs :| CallsOf(r.log, after[j].num) == CallsOf(log + block, after[j].num) + vs && Explains(after, r, j, vs);
        assert Explains(steps, r, j, vs);
      } else {
        assert calls == calls + [] && Explains(steps, r, j, []);
      }
    }
  }

  lemma OwnStepIsEarned(steps: seq<Step>, gate: Gate, log: seq<GateCall>, j: nat)
    requires j < |steps| && FirstPending(steps) < |steps| && steps[FirstPending(steps)].num == steps[j].num
    ensures var r := RunAll(steps, gate, log);
            |r.steps| == |steps| && r.steps[j].num == steps[j].num &&
            exists vs :: CallsOf(r.log, steps[j].num) == CallsOf(log, steps[j].num) + vs && Explains(steps, r, j, vs)
  {
    var i := FirstPending(steps);
    var num := steps[i].num;
    var r := RunAll(steps, gate, log);
    assert steps[i] == Step(num, Pending);
    if AlreadyBlocked(steps, num) {
      var stop := [GateCall(num, ChildBlocked)];
      CallsOfOwn(log, stop, num);
      assert Verdicts(stop) == [ChildBlocked];
      assert Explains(steps, r, j, [ChildBlocked]);
    } else {
      var (status, count) := Attempts(gate, |log|, 1);
      var block := CallLog(gate, |log|, count, num);
      var after := Mark(steps, num, status);
      CallsOfOwn(log, block, num);
      OwnBlockIsEarned(gate, |log|, num);
      if status.Completed? {
        assert !PendingNumber(after, num);
        SettledIsLeftAlone(after, gate, log + block, j);
      }
      assert Explains(steps, r, j, Verdicts(block));
    }
  }
}
