/**
 Cron jobs that disable themselves after too many failures in a row (internal/core/cron_job.go:148-267).
 Requests run concurrently: each is a few SQL statements, and only a statement is atomic.
 */
module CronJobs {
  import opened Text

  datatype Status = Active | AutoDisabled | Provisioning | Failed | Other

  datatype Job = Job(enabled: bool, failures: int, max: int, status: Status)

  // The statements.

  predicate EnableAllowed(j: Job) { j.status == Active || j.status == AutoDisabled }

  predicate DisableAllowed(j: Job) { j.status == Active }

  predicate RetryAllowed(j: Job) { j.status == Failed || j.status == AutoDisabled }

  function Enabling(j: Job): Job { j.(enabled := true, failures := 0, status := Provisioning) }

  function Disabling(j: Job): Job { j.(enabled := false, status := Provisioning) }

  function Retrying(j: Job): Job { j.(failures := 0, status := Provisioning) }

  function AutoDisabling(j: Job): Job { j.(enabled := false, status := AutoDisabled) }

  /** The threshold test on the values an increment returned. */
  predicate Tripped(j: Job) { j.max > 0 && j.failures >= j.max && j.enabled }

  // Serial use.

  datatype Op = Report(success: bool) | Enable | Disable | Retry | SetStatus(status: Status)

  /** `SetStatus` stands for what the provisioning workflows and `Update` write. */
  function Apply(j: Job, op: Op): Job {
    match op
    case Report(true) => j.(failures := 0)
    case Report(false) =>
      var counted := j.(failures := j.failures + 1);
      if Tripped(counted) then AutoDisabling(counted) else counted
    case Enable => if EnableAllowed(j) then Enabling(j) else j
    case Disable => if DisableAllowed(j) then Disabling(j) else j
    case Retry => if RetryAllowed(j) then Retrying(j) else j
    case SetStatus(s) => j.(status := s)
  }

  // The same operations, column by column.

  predicate Row(j: Job, enabled: bool, failures: int, max: int, status: Status) {
    j.enabled == enabled && j.failures == failures && j.max == max && j.status == status
  }

  /** A success clears the counter; a failure counts, and at the threshold turns an enabled job off. */
  predicate Reported(j: Job, success: bool, after: Job) {
    if success then Row(after, j.enabled, 0, j.max, j.status)
    else if j.enabled && 0 < j.max <= j.failures + 1 then Row(after, false, j.failures + 1, j.max, AutoDisabled)
    else Row(after, j.enabled, j.failures + 1, j.max, j.status)
  }

  /** Which states a request is for, and what it leaves; it leaves any other state alone. */
  lemma {:induction false} OperationsLaw(j: Job)
    ensures forall success :: Reported(j, success, Apply(j, Report(success)))
    ensures if j.status in {Active, AutoDisabled} then Row(Apply(j, Enable), true, 0, j.max, Provisioning) else Apply(j, Enable) == j
    ensures if j.status == Active then Row(Apply(j, Disable), false, j.failures, j.max, Provisioning) else Apply(j, Disable) == j
    ensures if j.status in {Failed, AutoDisabled} then Row(Apply(j, Retry), j.enabled, 0, j.max, Provisioning) else Apply(j, Retry) == j
  {
  }

  class CronJobService {
    var jobs: map<string, Job>

    method Enable(id: string) returns (ok: bool)
      modifies this
      ensures ok == (id in old(jobs) && (old(jobs)[id].status == Active || old(jobs)[id].status == AutoDisabled))
      ensures ok ==> id in jobs && Row(jobs[id], true, 0, old(jobs)[id].max, Provisioning)
      ensures jobs == if id in old(jobs) then old(jobs)[id := Apply(old(jobs)[id], Op.Enable)] else old(jobs)
    {
      if id !in jobs { return false; }
      var status := jobs[id].status;
      if status != Active && status != AutoDisabled { return false; }
      jobs := jobs[id := jobs[id].(enabled := true, failures := 0, status := Provisioning)];
      return true;
    }

    method Disable(id: string) returns (ok: bool)
      modifies this
      ensures ok == (id in old(jobs) && old(jobs)[id].status == Active)
      ensures ok ==> id in jobs && Row(jobs[id], false, old(jobs)[id].failures, old(jobs)[id].max, Provisioning)
      ensures jobs == if id in old(jobs) then old(jobs)[id := Apply(old(jobs)[id], Op.Disable)] else old(jobs)
    {
      if id !in jobs { return false; }
      if jobs[id].status != Active { return false; }
      jobs := jobs[id := jobs[id].(enabled := false, status := Provisioning)];
      return true;
    }

    method Retry(id: string) returns (ok: bool)
      modifies this
      ensures ok == (id in old(jobs) && (old(jobs)[id].status == Failed || old(jobs)[id].status == AutoDisabled))
      ensures ok ==> id in jobs && Row(jobs[id], old(jobs)[id].enabled, 0, old(jobs)[id].max, Provisioning)
      ensures jobs == if id in old(jobs) then old(jobs)[id := Apply(old(jobs)[id], Op.Retry)] else old(jobs)
    {
      if id !in jobs { return false; }
      var status := jobs[id].status;
      if status != Failed && status != AutoDisabled { return false; }
      jobs := jobs[id := jobs[id].(failures := 0, status := Provisioning)];
      return true;
    }

    /** A success for an unknown job is silently ignored, a failure is an error. */
    method ReportCronOutcome(id: string, success: bool) returns (ok: bool)
      modifies this
      ensures ok == (success || id in old(jobs))
      ensures id in old(jobs) ==> id in jobs && Reported(old(jobs)[id], success, jobs[id])
      ensures jobs == if id in old(jobs) then old(jobs)[id := Apply(old(jobs)[id], Report(success))] else old(jobs)
    {
      if success {
        if id in jobs { jobs := jobs[id := jobs[id].(failures := 0)]; }
        return true;
      }
      if id !in jobs { return false; }
      jobs := jobs[id := jobs[id].(failures := jobs[id].failures + 1)];
      var row := jobs[id];
      if row.max > 0 && row.failures >= row.max && row.enabled {
        jobs := jobs[id := jobs[id].(enabled := false, status := AutoDisabled)];
      }
      return true;
    }
  }

  function Run(j: Job, ops: seq<Op>): Job {
    if ops == [] then j else Apply(Run(j, ops[..|ops| - 1]), ops[|ops| - 1])
  }

  /** The operation clears the counter. */
  predicate Resets(j: Job, op: Op) {
    op == Report(true) || (op == Enable && EnableAllowed(j)) || (op == Retry && RetryAllowed(j))
  }

  /** The position after the last operation that cleared the counter, or 0. */
  function LastReset(j: Job, ops: seq<Op>): nat {
    if ops == [] then 0
    else if Resets(Run(j, ops[..|ops| - 1]), ops[|ops| - 1]) then |ops|
    else LastReset(j, ops[..|ops| - 1])
  }

  function FailuresIn(ops: seq<Op>): nat {
    if ops == [] then 0 else FailuresIn(ops[..|ops| - 1]) + if ops[|ops| - 1] == Report(false) then 1 else 0
  }

  lemma {:induction false} LastResetBound(j: Job, ops: seq<Op>)
    ensures LastReset(j, ops) <= |ops|
  {
    if ops == [] {
    } else {
      LastResetBound(j, ops[..|ops| - 1]);
    }
  }

  lemma {:induction false} FailuresNext(ops: seq<Op>, op: Op)
    ensures FailuresIn(ops + [op]) == FailuresIn(ops) + if op == Report(false) then 1 else 0
  {
    assert (ops + [op])[..|ops|] == ops;
  }

  lemma {:induction false} ResetNext(j: Job, ops: seq<Op>, op: Op)
    ensures Run(j, ops + [op]) == Apply(Run(j, ops), op)
    ensures LastReset(j, ops + [op]) == if Resets(Run(j, ops), op) then |ops| + 1 else LastReset(j, ops)
  {
    assert (ops + [op])[..|ops|] == ops;
  }

  lemma {:induction false} CounterStep(j: Job, op: Op)
    ensures Apply(j, op).failures
         == if Resets(j, op) then 0 else j.failures + if op == Report(false) then 1 else 0
  {
  }

  /** The counter is the number of failures reported since it was last cleared. */
  lemma {:induction false} CounterCounts(j: Job, ops: seq<Op>)
    requires j.failures == 0
    ensures LastReset(j, ops) <= |ops|
    ensures Run(j, ops).failures == FailuresIn(ops[LastReset(j, ops)..])
  {
    LastResetBound(j, ops);
    if ops == [] {
    } else {
      var front, last := ops[..|ops| - 1], ops[|ops| - 1];
      assert ops == front + [last];
      CounterCounts(j, front);
      ResetNext(j, front, last);
      CounterStep(Run(j, front), last);
      var r := LastReset(j, front);
      if !Resets(Run(j, front), last) {
        assert ops[r..] == front[r..] + [last];
        FailuresNext(front[r..], last);
      }
    }
  }

  /** An enabled job is below its threshold. */
  predicate Below(j: Job) { j.enabled && j.max > 0 ==> j.failures < j.max }

  lemma {:induction false} SerialStaysBelow(j: Job, ops: seq<Op>)
    requires Below(j)
    ensures Below(Run(j, ops)) && Run(j, ops).max == j.max
  {
    if ops == [] {
    } else {
      SerialStaysBelow(j, ops[..|ops| - 1]);
    }
  }

  /** The operation is the one that turns the job off for its failures. */
  predicate Fires(j: Job, op: Op) {
    op == Report(false) && j.enabled && !Apply(j, op).enabled
  }

  /**
   In every serial run the job is turned off by exactly the report of the max-th failure since the counter
   was last cleared, while it is enabled; and an enabled job never gets past its threshold.
   */
  lemma {:induction false} AutoDisableIsExact(j: Job, ops: seq<Op>)
    requires j.failures == 0 && j.max > 0
    ensures Below(Run(j, ops))
    ensures LastReset(j, ops) <= |ops|
    ensures Fires(Run(j, ops), Report(false))
      <==> Run(j, ops).enabled && FailuresIn(ops[LastReset(j, ops)..]) + 1 == j.max
  {
    CounterCounts(j, ops);
    SerialStaysBelow(j, ops);
  }

  /** Without a threshold nothing fires. */
  lemma {:induction false} NoThresholdNeverFires(j: Job, ops: seq<Op>)
    requires j.max <= 0
    ensures !Fires(Run(j, ops), Report(false))
  {
    MaxIsFixed(j, ops);
  }

  lemma {:induction false} MaxIsFixed(j: Job, ops: seq<Op>)
    ensures Run(j, ops).max == j.max
  {
    if ops == [] {
    } else {
      MaxIsFixed(j, ops[..|ops| - 1]);
    }
  }

  // Interleaving.

  /** A request between its first statement and its second; a report carries when it counted its failure. */
  datatype Pending = ToAutoDisable(at: nat) | ToEnable | ToDisable | ToRetry

  /** All jobs, the requests in flight, and the number of statements so far. */
  datatype System = System(jobs: map<string, Job>, flying: multiset<(string, Pending)>, time: nat)

  datatype Step =
    | Create(id: string, enabled: bool, max: int)
    | Succeeded(id: string)
    | Counted(id: string)
    | Checked(id: string, want: Pending)
    | Written(id: string, what: Pending)
    | Moved(id: string, status: Status)

  /** A step can be taken: the row is there, the guard it read lets it go on, the request is in flight. */
  predicate Possible(s: System, step: Step) {
    match step
    case Create(id, _, _) => id !in s.jobs
    case Succeeded(id) => id in s.jobs
    case Counted(id) => id in s.jobs
    case Checked(id, want) => id in s.jobs && Guard(s.jobs[id], want)
    case Written(id, what) => (id, what) in s.flying && id in s.jobs
    case Moved(id, _) => id in s.jobs
  }

  /** The guard a request reads first; a report has its own. */
  predicate Guard(j: Job, want: Pending) {
    match want
    case ToEnable => EnableAllowed(j)
    case ToDisable => DisableAllowed(j)
    case ToRetry => RetryAllowed(j)
    case ToAutoDisable(_) => false
  }

  function Write(j: Job, what: Pending): Job {
    match what
    case ToEnable => Enabling(j)
    case ToDisable => Disabling(j)
    case ToRetry => Retrying(j)
    case ToAutoDisable(_) => AutoDisabling(j)
  }

  /** What the step does to the row of a job it is about. */
  function Changed(j: Job, step: Step): Job {
    match step
    case Create(_, _, _) => j
    case Succeeded(_) => j.(failures := 0)
    case Counted(_) => j.(failures := j.failures + 1)
    case Checked(_, _) => j
    case Written(_, what) => Write(j, what)
    case Moved(_, status) => j.(status := status)
  }

  function Next(s: System, step: Step): System
    requires Possible(s, step)
  {
    var id := step.id;
    var row := if step.Create? then Job(step.enabled, 0, step.max, Other) else Changed(s.jobs[id], step);
    var flying :=
      match step
      case Counted(_) => if Tripped(row) then s.flying + multiset{(id, ToAutoDisable(s.time))} else s.flying
      case Checked(_, want) => s.flying + multiset{(id, want)}
      case Written(_, what) => s.flying - multiset{(id, what)}
      case _ => s.flying;
    System(s.jobs[id := row], flying, s.time + 1)
  }

  /** The statements of concurrent requests, column by column. */
  lemma {:induction false} StatementsLaw(j: Job, at: nat, id: string)
    ensures Guard(j, ToEnable) <==> j.status in {Active, AutoDisabled}
    ensures Guard(j, ToDisable) <==> j.status == Active
    ensures Guard(j, ToRetry) <==> j.status in {Failed, AutoDisabled}
    ensures Row(Changed(j, Written(id, ToEnable)), true, 0, j.max, Provisioning)
    ensures Row(Changed(j, Written(id, ToDisable)), false, j.failures, j.max, Provisioning)
    ensures Row(Changed(j, Written(id, ToRetry)), j.enabled, 0, j.max, Provisioning)
    ensures Row(Changed(j, Written(id, ToAutoDisable(at))), false, j.failures, j.max, AutoDisabled)
    ensures Row(Changed(j, Succeeded(id)), j.enabled, 0, j.max, j.status)
    ensures Row(Changed(j, Counted(id)), j.enabled, j.failures + 1, j.max, j.status)
    ensures Tripped(j) <==> j.enabled && 0 < j.max <= j.failures
  {
  }

  /** A report that will turn the job off is in flight. */
  ghost predicate HasWatcher(s: System, id: string) { exists at :: (id, ToAutoDisable(at)) in s.flying }

  /** Every enabled job at or past its threshold has one. */
  ghost predicate Watched(s: System) {
    forall id :: id in s.jobs && Tripped(s.jobs[id]) ==> HasWatcher(s, id)
  }

  lemma {:induction false} StepKeepsWatched(s: System, step: Step)
    requires Watched(s) && Possible(s, step)
    ensures Watched(Next(s, step))
  {
    var s' := Next(s, step);
    forall id | id in s'.jobs && Tripped(s'.jobs[id]) ensures HasWatcher(s', id) {
      if id == step.id && step.Counted? {
        assert (id, ToAutoDisable(s.time)) in s'.flying;
      } else {
        assert id in s.jobs && Tripped(s.jobs[id]);
        var at :| (id, ToAutoDisable(at)) in s.flying;
        assert (id, ToAutoDisable(at)) in s'.flying;
      }
    }
  }

  ghost predicate StepAt(states: seq<System>, steps: seq<Step>, i: nat) {
    i < |steps| && i + 1 < |states| && Possible(states[i], steps[i]) && states[i + 1] == Next(states[i], steps[i])
  }

  /** A run of statements, of any requests in any order, with the states it goes through. */
  ghost predicate Course(states: seq<System>, steps: seq<Step>) {
    |states| == |steps| + 1 && forall i: nat :: i < |steps| ==> StepAt(states, steps, i)
  }

  /**
   Under every interleaving of the statements of outcome reports, Enable, Disable, Retry and the
   workflows: whenever an enabled job has reached its threshold, a report that will turn it off is in
   flight.
   */
  lemma {:induction false} ThresholdIsWatched(states: seq<System>, steps: seq<Step>, n: nat)
    requires Course(states, steps) && n <= |steps| && Watched(states[0])
    ensures Watched(states[n])
  {
    if n == 0 {
    } else {
      ThresholdIsWatched(states, steps, n - 1);
      assert StepAt(states, steps, n - 1);
      StepKeepsWatched(states[n - 1], steps[n - 1]);
    }
  }

  /** And that report can always go on, and does turn it off. */
  lemma {:induction false} WatcherTurnsOff(s: System, id: string, at: nat)
    requires id in s.jobs && (id, ToAutoDisable(at)) in s.flying
    ensures Possible(s, Written(id, ToAutoDisable(at)))
    ensures !Next(s, Written(id, ToAutoDisable(at))).jobs[id].enabled
  {
  }

  // When a report turns off a job that is below its threshold by then.

  /** The step sets the counter of the job to zero. */
  predicate Clears(step: Step, id: string) {
    step.id == id && (step.Succeeded? || (step.Written? && (step.what.ToEnable? || step.what.ToRetry?)))
  }

  /** The step writes whether the job is enabled. */
  predicate Switches(step: Step, id: string) { step.id == id && step.Written? && !step.what.ToRetry? }

  /** The last of the steps from `from` up to before `n` that clears the counter. */
  function LastClear(steps: seq<Step>, id: string, from: nat, n: nat): (k: Option<nat>)
    requires from <= n <= |steps|
    ensures k.Some? ==> from <= k.value < n
    decreases n
  {
    if n == from then None else if Clears(steps[n - 1], id) then Some(n - 1) else LastClear(steps, id, from, n - 1)
  }

  function LastSwitch(steps: seq<Step>, id: string, from: nat, n: nat): (k: Option<nat>)
    requires from <= n <= |steps|
    ensures k.Some? ==> from <= k.value < n && Switches(steps[k.value], id)
    decreases n
  {
    if n == from then None else if Switches(steps[n - 1], id) then Some(n - 1) else LastSwitch(steps, id, from, n - 1)
  }

  /** How many failures of the job are counted from `from` up to before `n`. */
  function CountedIn(steps: seq<Step>, id: string, from: nat, n: nat): nat
    requires from <= n <= |steps|
    decreases n
  {
    if n == from then 0 else CountedIn(steps, id, from, n - 1) + if steps[n - 1] == Counted(id) then 1 else 0
  }

  lemma {:induction false} StepOnJob(s: System, step: Step, id: string)
    requires Possible(s, step) && id in s.jobs
    ensures id in Next(s, step).jobs && Next(s, step).jobs[id].max == s.jobs[id].max
    ensures Next(s, step).jobs[id].failures
         == if Clears(step, id) then 0 else s.jobs[id].failures + if step == Counted(id) then 1 else 0
    ensures Next(s, step).jobs[id].enabled
         == if Switches(step, id) then step.what.ToEnable? else s.jobs[id].enabled
  {
  }

  lemma {:induction false} CourseGrows(states: seq<System>, steps: seq<Step>, step: Step)
    requires Course(states, steps) && Possible(states[|steps|], step)
    ensures Course(states + [Next(states[|steps|], step)], steps + [step])
  {
    var more := states + [Next(states[|steps|], step)];
    forall i: nat | i < |steps| + 1 ensures StepAt(more, steps + [step], i) {
      if i < |steps| { assert StepAt(states, steps, i); }
    }
  }

  lemma {:induction false} StepInCourse(states: seq<System>, steps: seq<Step>, i: nat, id: string)
    requires Course(states, steps) && i < |steps| && id in states[i].jobs
    ensures id in states[i + 1].jobs && states[i + 1].jobs[id].max == states[i].jobs[id].max
    ensures states[i + 1].jobs[id].failures
         == if Clears(steps[i], id) then 0 else states[i].jobs[id].failures + if steps[i] == Counted(id) then 1 else 0
    ensures states[i + 1].jobs[id].enabled
         == if Switches(steps[i], id) then steps[i].what.ToEnable? else states[i].jobs[id].enabled
  {
    assert StepAt(states, steps, i);
    StepOnJob(states[i], steps[i], id);
  }

  /** The job stays, with its threshold. */
  lemma {:induction false} JobStays(states: seq<System>, steps: seq<Step>, id: string, from: nat, n: nat)
    requires Course(states, steps) && from <= n <= |steps| && id in states[from].jobs
    ensures id in states[n].jobs && states[n].jobs[id].max == states[from].jobs[id].max
    decreases n
  {
    if n == from {
    } else {
      JobStays(states, steps, id, from, n - 1);
      StepInCourse(states, steps, n - 1, id);
    }
  }

  /** The counter at a later moment: the failures counted since it was last cleared, or since the earlier moment. */
  lemma {:induction false} CounterBetween(states: seq<System>, steps: seq<Step>, id: string, from: nat, n: nat)
    requires Course(states, steps) && from <= n <= |steps| && id in states[from].jobs && id in states[n].jobs
    ensures var last := LastClear(steps, id, from, n);
      states[n].jobs[id].failures == if last.Some? then CountedIn(steps, id, last.value + 1, n)
                                     else states[from].jobs[id].failures + CountedIn(steps, id, from, n)
    decreases n
  {
    if n == from {
    } else {
      JobStays(states, steps, id, from, n - 1);
      CounterBetween(states, steps, id, from, n - 1);
      StepInCourse(states, steps, n - 1, id);
    }
  }

  /** The switch at a later moment: as it was last written, or as it was. */
  lemma {:induction false} SwitchBetween(states: seq<System>, steps: seq<Step>, id: string, from: nat, n: nat)
    requires Course(states, steps) && from <= n <= |steps| && id in states[from].jobs && id in states[n].jobs
    ensures var last := LastSwitch(steps, id, from, n);
      states[n].jobs[id].enabled == if last.Some? then steps[last.value].what.ToEnable? else states[from].jobs[id].enabled
    decreases n
  {
    if n == from {
    } else {
      JobStays(states, steps, id, from, n - 1);
      SwitchBetween(states, steps, id, from, n - 1);
      StepInCourse(states, steps, n - 1, id);
    }
  }

  /** No report is in flight, and the clock is at zero. */
  ghost predicate Started(s: System) {
    s.time == 0 && forall id, at :: (id, ToAutoDisable(at)) !in s.flying
  }

  /** A report in flight did count a failure that tripped the threshold, at the time it carries. */
  ghost predicate CountedAt(states: seq<System>, steps: seq<Step>, n: nat, id: string, at: nat)
    requires |states| == |steps| + 1
  {
    at < n <= |steps| && steps[at] == Counted(id) && id in states[at + 1].jobs && Tripped(states[at + 1].jobs[id])
  }

  lemma {:induction false} FlightsCounted(states: seq<System>, steps: seq<Step>, n: nat)
    requires Course(states, steps) && Started(states[0]) && n <= |steps|
    ensures states[n].time == n
    ensures forall id, at :: (id, ToAutoDisable(at)) in states[n].flying ==> CountedAt(states, steps, n, id, at)
  {
    if n == 0 {
    } else {
      FlightsCounted(states, steps, n - 1);
      assert StepAt(states, steps, n - 1);
      forall id, at | (id, ToAutoDisable(at)) in states[n].flying ensures CountedAt(states, steps, n, id, at) {
        if (id, ToAutoDisable(at)) in states[n - 1].flying {
          assert CountedAt(states, steps, n - 1, id, at);
        }
      }
    }
  }

  /** The write of a report at step `n` turns off a job that is enabled and below its threshold. */
  predicate TurnsOffBelow(states: seq<System>, id: string, n: nat) {
    n < |states| && id in states[n].jobs && states[n].jobs[id].enabled && states[n].jobs[id].failures < states[n].jobs[id].max
  }

  /** Since the report counted, the counter was cleared, and fewer than `max` failures were counted after that. */
  predicate ClearedSince(steps: seq<Step>, id: string, at: nat, n: nat, max: int)
    requires at < n <= |steps|
  {
    var last := LastClear(steps, id, at + 1, n);
    last.Some? && CountedIn(steps, id, last.value + 1, n) < max
  }

  /** Since the report counted, nobody switched the job, or the last to do so enabled it. */
  predicate StillEnabled(steps: seq<Step>, id: string, at: nat, n: nat)
    requires at < n <= |steps|
  {
    var last := LastSwitch(steps, id, at + 1, n);
    last.Some? ==> steps[last.value].what.ToEnable?
  }

  /**
   The exact condition, over every interleaving. The second statement of a report that counted its failure
   at step `at` turns off an enabled job below its threshold if and only if between the two statements the
   counter was cleared (by a success, an Enable or a Retry) with fewer than max failures counted after the
   last time, and the job was not left switched off.
   */
  lemma {:induction false} StaleDisableIff(states: seq<System>, steps: seq<Step>, n: nat, id: string, at: nat)
    requires Course(states, steps) && Started(states[0]) && n < |steps| && steps[n] == Written(id, ToAutoDisable(at))
    ensures at < n && steps[at] == Counted(id) && id in states[n].jobs
    ensures id in states[n + 1].jobs && !states[n + 1].jobs[id].enabled
    ensures TurnsOffBelow(states, id, n)
       <==> ClearedSince(steps, id, at, n, states[n].jobs[id].max) && StillEnabled(steps, id, at, n)
  {
    FlightsCounted(states, steps, n);
    assert StepAt(states, steps, n);
    assert CountedAt(states, steps, n, id, at);
    JobStays(states, steps, id, at + 1, n);
    CounterBetween(states, steps, id, at + 1, n);
    SwitchBetween(states, steps, id, at + 1, n);
  }

  /** In a serial run nothing comes between the two statements, and this never happens. */
  lemma {:induction false} PromptReportIsExact(states: seq<System>, steps: seq<Step>, n: nat, id: string, at: nat)
    requires Course(states, steps) && Started(states[0]) && n < |steps| && steps[n] == Written(id, ToAutoDisable(at))
    requires n == at + 1
    ensures !TurnsOffBelow(states, id, n)
  {
    StaleDisableIff(states, steps, n, id, at);
  }

  /** An Enable has read its guard, and then a report counts the failure that trips the threshold. */
  lemma {:induction false} BothInFlight(s0: System, id: string, s1: System, s2: System)
    requires id in s0.jobs && s0.jobs[id].enabled && s0.jobs[id].status == Active
    requires s0.jobs[id].failures == s0.jobs[id].max - 1 >= 0
    requires s1 == Next(s0, Checked(id, ToEnable)) && s2 == Next(s1, Counted(id))
    ensures id in s2.jobs && (id, ToEnable) in s2.flying && (id, ToAutoDisable(s1.time)) in s2.flying
  {
    assert s1.jobs[id] == s0.jobs[id];
  }

  lemma {:induction false} StaysInFlight(s2: System, id: string, at: nat)
    requires id in s2.jobs && (id, ToEnable) in s2.flying && (id, ToAutoDisable(at)) in s2.flying
    ensures Possible(Next(s2, Written(id, ToEnable)), Written(id, ToAutoDisable(at)))
  {
  }

  function WitnessSteps(id: string): seq<Step> {
    [Checked(id, ToEnable), Counted(id), Written(id, ToEnable), Written(id, ToAutoDisable(1))]
  }

  lemma {:induction false} WitnessClears(id: string)
    ensures ClearedSince(WitnessSteps(id), id, 1, 3, 1) && StillEnabled(WitnessSteps(id), id, 1, 3)
  {
    var steps := WitnessSteps(id);
    assert LastClear(steps, id, 2, 3) == Some(2) && LastSwitch(steps, id, 2, 3) == Some(2);
  }

  /** It does happen: an Enable between the two statements, and the job just enabled is turned off. */
  lemma {:induction false} StaleReportDisables(s0: System, id: string) returns (states: seq<System>)
    requires Started(s0) && id in s0.jobs && s0.jobs[id].enabled && s0.jobs[id].status == Active
    requires s0.jobs[id].failures == s0.jobs[id].max - 1 >= 0
    ensures Course(states, WitnessSteps(id)) && states[0] == s0
    ensures TurnsOffBelow(states, id, 3)
  {
    var s1 := Next(s0, Checked(id, ToEnable));
    var s2 := Next(s1, Counted(id));
    BothInFlight(s0, id, s1, s2);
    var s3 := Next(s2, Written(id, ToEnable));
    StaysInFlight(s2, id, 1);
    var s4 := Next(s3, Written(id, ToAutoDisable(1)));
    var steps := WitnessSteps(id);
    CourseGrows([s0], [], steps[0]);
    CourseGrows([s0, s1], steps[..1], steps[1]);
    CourseGrows([s0, s1, s2], steps[..2], steps[2]);
    CourseGrows([s0, s1, s2, s3], steps[..3], steps[3]);
    states := [s0, s1, s2, s3, s4];
    assert steps == steps[..3] + [steps[3]] && states == [s0, s1, s2, s3] + [s4];
    StaleDisableIff(states, WitnessSteps(id), 3, id, 1);
    JobStays(states, WitnessSteps(id), id, 0, 3);
    WitnessClears(id);
  }
}
