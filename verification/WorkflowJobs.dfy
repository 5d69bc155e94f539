/**
 * The durable chain of jobs that runs one triggered workflow. Any number of workers interleave
 * single database calls and step effects; reading the workflow, a step's effect, enqueueing the next
 * job and marking a job done may each fail.
 */
module WorkflowJobs {
  import opened NumberTheory

  const MAX_JOB_ATTEMPTS: nat := 6

  /** Times are in milliseconds. */
  datatype WorkflowStep = Effect | Delay(ms: int)

  // ---- backoff -------------------------------------------------------------------------------

  datatype Retry = Retry(dead: bool, runAt: int)

  function Min(a: int, b: int): int {
    if a < b then a else b
  }

  function NextRetry(attempts: nat, now: int): Retry {
    if attempts >= MAX_JOB_ATTEMPTS then Retry(true, now)
    else Retry(false, now + Min(Pow(2, attempts), 30) * 60_000)
  }

  /** Waits double from one minute and stop at thirty; the job is given up after that. */
  lemma BackoffSchedule(attempts: nat, now: int)
    ensures NextRetry(attempts, now).dead <==> attempts >= 6
    ensures !NextRetry(attempts, now).dead ==>
              NextRetry(attempts, now).runAt - now == [1, 2, 4, 8, 16, 30][attempts] * 60_000
  {
    assert Pow(2, 0) == 1 && Pow(2, 1) == 2 && Pow(2, 2) == 4;
    assert Pow(2, 3) == 8 && Pow(2, 4) == 16 && Pow(2, 5) == 32;
  }

  // ---- the jobs table ------------------------------------------------------------------------

  /** What the worker holding a job does next. */
  datatype Stage = Execute | Schedule | Finish
  datatype Status = Pending | Running(now: int, stage: Stage) | Done | Dead
  /** `runs` counts how often a worker has claimed the job; `taken` says that its step took effect. */
  datatype Job = Job(stepIndex: nat, status: Status, attempts: nat, runAt: int, runs: nat, taken: bool)
  datatype Executed = Executed(stepIndex: nat, now: int)
  datatype State = State(steps: seq<WorkflowStep>, jobs: seq<Job>, executed: seq<Executed>)

  /** `ok` is whether the worker's next call succeeds. */
  datatype Action =
    | Claim(j: nat, now: int)
    | Work(j: nat, ok: bool)

  function Triggered(steps: seq<WorkflowStep>, at: int): State {
    State(steps, [Job(0, Pending, 0, at, 0, false)], [])
  }

  function SetJob(s: State, j: nat, job: Job): State
    requires j < |s.jobs|
  {
    s.(jobs := s.jobs[j := job])
  }

  /** The failure path: try again later, or give up. */
  function RetryOrDead(job: Job, now: int): Job {
    var r := NextRetry(job.attempts, now);
    job.(status := if r.dead then Dead else Pending, attempts := job.attempts + 1, runAt := r.runAt)
  }

  function DelayOf(step: WorkflowStep): int {
    match step
    case Delay(ms) => ms
    case Effect => 0
  }

  /** The job's step takes effect; a delay does so by setting the time of the next step. */
  function Take(s: State, j: nat, now: int, stage: Stage): State
    requires j < |s.jobs|
  {
    SetJob(s, j, s.jobs[j].(status := Running(now, stage), taken := true)).(
      executed := s.executed + [Executed(s.jobs[j].stepIndex, now)])
  }

  function MoveTo(s: State, j: nat, now: int, stage: Stage): State
    requires j < |s.jobs|
  {
    SetJob(s, j, s.jobs[j].(status := Running(now, stage)))
  }

  function Enqueue(s: State, stepIndex: nat, runAt: int): State {
    s.(jobs := s.jobs + [Job(stepIndex, Pending, 0, runAt, 0, false)])
  }

  /** The next call of the worker running job j. */
  function WorkOn(s: State, j: nat, ok: bool): State
    requires j < |s.jobs| && s.jobs[j].status.Running?
  {
    var job := s.jobs[j];
    var now, i := job.status.now, job.stepIndex;
    match job.status.stage
    case Execute =>
      // Reading the workflow may fail for any step, and so may an effect.
      if !ok then SetJob(s, j, RetryOrDead(job, now))
      else if i >= |s.steps| then MoveTo(s, j, now, Finish)
      else if s.steps[i].Delay? then MoveTo(s, j, now, Schedule)
      else Take(s, j, now, Schedule)
    case Schedule =>
      if i >= |s.steps| then s
      else
        var scheduled := if s.steps[i].Delay? then Take(s, j, now, Finish) else MoveTo(s, j, now, Finish);
        // After the last step there is no call to make.
        if i + 1 == |s.steps| then scheduled
        else if ok then Enqueue(scheduled, i + 1, now + DelayOf(s.steps[i]))
        else SetJob(s, j, RetryOrDead(job, now))
    case Finish => SetJob(s, j, if ok then job.(status := Done) else RetryOrDead(job, now))
  }

  function Do(s: State, a: Action): State {
    match a
    case Claim(j, now) =>
      if j < |s.jobs| && s.jobs[j].status.Pending? && s.jobs[j].runAt <= now then
        SetJob(s, j, s.jobs[j].(status := Running(now, Execute), runs := s.jobs[j].runs + 1))
      else s
    case Work(j, ok) => if j < |s.jobs| && s.jobs[j].status.Running? then WorkOn(s, j, ok) else s
  }

  function Exec(s: State, actions: seq<Action>): State
    decreases |actions|
  {
    if actions == [] then s else Exec(Do(s, actions[0]), actions[1..])
  }

  // ---- what holds whatever fails -------------------------------------------------------------

  /** The delays of the first n steps. */
  function TotalDelay(steps: seq<WorkflowStep>, n: nat): int
    requires n <= |steps|
  {
    if n == 0 then 0 else TotalDelay(steps, n - 1) + DelayOf(steps[n - 1])
  }

  ghost predicate RunsOk(job: Job) {
    match job.status
    case Pending => job.runs == job.attempts <= MAX_JOB_ATTEMPTS
    case Running(_, _) => job.runs == job.attempts + 1 <= MAX_JOB_ATTEMPTS + 1
    case Done => job.runs == job.attempts + 1 <= MAX_JOB_ATTEMPTS + 1
    case Dead => job.runs == job.attempts == MAX_JOB_ATTEMPTS + 1
  }

  ghost predicate OnTime(steps: seq<WorkflowStep>, at: int, job: Job) {
    job.stepIndex < |steps| ==>
      job.runAt >= at + TotalDelay(steps, job.stepIndex) &&
      (job.status.Running? ==> job.status.now >= at + TotalDelay(steps, job.stepIndex))
  }

  ghost predicate Timed(s: State, at: int) {
    (forall j | 0 <= j < |s.jobs| :: RunsOk(s.jobs[j]) && OnTime(s.steps, at, s.jobs[j])) &&
    (forall e | e in s.executed :: e.stepIndex < |s.steps| && e.now >= at + TotalDelay(s.steps, e.stepIndex))
  }

  lemma RetryLater(job: Job, now: int)
    ensures RetryOrDead(job, now).runAt >= now
    ensures job.runs == job.attempts + 1 <= 7 ==> RunsOk(RetryOrDead(job, now))
  {
    if job.attempts < 6 {
      BackoffSchedule(job.attempts, now);
    }
  }

  lemma TimedJob(s: State, at: int, j: nat)
    requires Timed(s, at) && j < |s.jobs|
    ensures RunsOk(s.jobs[j]) && OnTime(s.steps, at, s.jobs[j])
  {
  }

  lemma SetJobKeepsTimed(s: State, at: int, j: nat, job: Job)
    requires Timed(s, at) && j < |s.jobs| && RunsOk(job) && OnTime(s.steps, at, job)
    ensures Timed(SetJob(s, j, job), at)
  {
  }

  lemma TakeKeepsTimed(s: State, at: int, j: nat, now: int, stage: Stage)
    requires Timed(s, at) && j < |s.jobs| && s.jobs[j].status.Running? && s.jobs[j].status.now == now
    requires s.jobs[j].stepIndex < |s.steps|
    ensures Timed(Take(s, j, now, stage), at)
  {
    TimedJob(s, at, j);
    SetJobKeepsTimed(s, at, j, s.jobs[j].(status := Running(now, stage), taken := true));
  }

  lemma EnqueueKeepsTimed(s: State, at: int, i: nat, runAt: int)
    requires Timed(s, at) && i < |s.steps| && runAt >= at + TotalDelay(s.steps, i)
    ensures Timed(Enqueue(s, i, runAt), at)
  {
  }

  lemma RetryKeepsTimed(s: State, at: int, j: nat)
    requires Timed(s, at) && j < |s.jobs| && s.jobs[j].status.Running?
    ensures Timed(SetJob(s, j, RetryOrDead(s.jobs[j], s.jobs[j].status.now)), at)
  {
    hide NextRetry, RetryOrDead;
    TimedJob(s, at, j);
    RetryLater(s.jobs[j], s.jobs[j].status.now);
    RetryKeepsStep(s.jobs[j], s.jobs[j].status.now);
    SetJobKeepsTimed(s, at, j, RetryOrDead(s.jobs[j], s.jobs[j].status.now));
  }

  lemma WorkKeepsTimed(s: State, at: int, j: nat, ok: bool)
    requires Timed(s, at) && j < |s.jobs| && s.jobs[j].status.Running?
    ensures Timed(WorkOn(s, j, ok), at) && WorkOn(s, j, ok).steps == s.steps
  {
    hide RetryOrDead, Timed;
    var job := s.jobs[j];
    var now, i := job.status.now, job.stepIndex;
    TimedJob(s, at, j);
    RetryKeepsTimed(s, at, j);
    SetJobKeepsTimed(s, at, j, job.(status := Running(now, Schedule)));
    SetJobKeepsTimed(s, at, j, job.(status := Running(now, Finish)));
    SetJobKeepsTimed(s, at, j, job.(status := Done));
    if i < |s.steps| {
      TakeKeepsTimed(s, at, j, now, Schedule);
      TakeKeepsTimed(s, at, j, now, Finish);
      if i + 1 < |s.steps| {
        var scheduled := if s.steps[i].Delay? then Take(s, j, now, Finish) else MoveTo(s, j, now, Finish);
        EnqueueKeepsTimed(scheduled, at, i + 1, now + DelayOf(s.steps[i]));
      }
    }
  }

  lemma StepKeepsTimed(s: State, at: int, a: Action)
    requires Timed(s, at)
    ensures Timed(Do(s, a), at) && Do(s, a).steps == s.steps
  {
    hide Timed, WorkOn;
    if a.j < |s.jobs| {
      TimedJob(s, at, a.j);
      var job := s.jobs[a.j];
      if a.Work? && job.status.Running? {
        WorkKeepsTimed(s, at, a.j, a.ok);
      } else if a.Claim? && job.status.Pending? && job.runAt <= a.now {
        SetJobKeepsTimed(s, at, a.j, job.(status := Running(a.now, Execute), runs := job.runs + 1));
      }
    }
  }

  lemma RetryKeepsStep(job: Job, now: int)
    ensures var r := RetryOrDead(job, now);
            && r.stepIndex == job.stepIndex && r.taken == job.taken && !r.status.Running?
            && (r.status.Dead? <==> job.attempts >= MAX_JOB_ATTEMPTS)
            && (r.status.Dead? || r.status.Pending?)
  {
  }

  lemma {:induction false} RunKeepsTimed(s: State, at: int, actions: seq<Action>)
    requires Timed(s, at)
    ensures Timed(Exec(s, actions), at) && Exec(s, actions).steps == s.steps
    decreases |actions|
  {
    if actions != [] {
      StepKeepsTimed(s, at, actions[0]);
      RunKeepsTimed(Do(s, actions[0]), at, actions[1..]);
    }
  }

  /** Whatever fails, no step takes effect before the trigger plus the delays before it. */
  lemma StepsOnTime(steps: seq<WorkflowStep>, at: int, actions: seq<Action>, k: nat)
    requires k < |Exec(Triggered(steps, at), actions).executed|
    ensures var e := Exec(Triggered(steps, at), actions).executed[k];
            e.stepIndex < |steps| && e.now >= at + TotalDelay(steps, e.stepIndex)
  {
    RunKeepsTimed(Triggered(steps, at), at, actions);
    assert Exec(Triggered(steps, at), actions).executed[k] in Exec(Triggered(steps, at), actions).executed;
  }

  /** Whatever fails, a job runs at most seven times, and is dead exactly when all seven failed. */
  lemma AtMostSevenRuns(steps: seq<WorkflowStep>, at: int, actions: seq<Action>, j: nat)
    requires j < |Exec(Triggered(steps, at), actions).jobs|
    ensures var job := Exec(Triggered(steps, at), actions).jobs[j];
            job.runs <= 7 && (job.status.Dead? <==> job.attempts == 7) && (job.status.Dead? ==> job.runs == 7)
  {
    RunKeepsTimed(Triggered(steps, at), at, actions);
  }

  // ---- the invariant of the chain --------------------------------------------------------------

  /** A call fails after the job's step took effect, and the job has runs left. */
  predicate Slip(s: State, a: Action) {
    a.Work? && !a.ok && a.j < |s.jobs| && s.jobs[a.j].status.Running? &&
    var job := s.jobs[a.j];
    job.attempts < MAX_JOB_ATTEMPTS && job.stepIndex < |s.steps| &&
    (job.status.stage.Finish? ||
     (job.status.stage.Schedule? && job.stepIndex + 1 < |s.steps| && s.steps[job.stepIndex].Effect?))
  }

  predicate SlipFree(s: State, actions: seq<Action>)
    decreases |actions|
  {
    actions == [] || (!Slip(s, actions[0]) && SlipFree(Do(s, actions[0]), actions[1..]))
  }

  lemma {:induction false} NoFailureNoSlip(s: State, actions: seq<Action>)
    requires forall a | a in actions :: a.Work? ==> a.ok
    ensures SlipFree(s, actions)
    decreases |actions|
  {
    if actions != [] {
      NoFailureNoSlip(Do(s, actions[0]), actions[1..]);
    }
  }

  /** A job's status tells whether its step took effect, unless the job is dead. */
  ghost predicate TakenOk(s: State, job: Job) {
    match job.status
    case Pending => !job.taken
    case Running(_, Execute) => !job.taken
    case Running(_, Schedule) => job.stepIndex < |s.steps| && job.taken == s.steps[job.stepIndex].Effect?
    case Running(_, Finish) => job.taken == (job.stepIndex < |s.steps|)
    case Done => job.taken == (job.stepIndex < |s.steps|)
    case Dead => true
  }

  ghost predicate Finishing(job: Job) {
    job.status.Running? && job.status.stage.Finish?
  }

  ghost predicate JobOk(s: State, j: nat)
    requires j < |s.jobs|
  {
    var job := s.jobs[j];
    job.stepIndex == j && TakenOk(s, job) && (j < |s.steps| || (j == 0 && s.steps == [])) &&
    (j < |s.jobs| - 1 ==> job.taken && (job.status.Done? || job.status.Dead? || Finishing(job))) &&
    (j == |s.jobs| - 1 && j + 1 < |s.steps| ==> !job.status.Done? && !Finishing(job))
  }

  /** Steps have taken effect in order, each exactly once. */
  ghost predicate OnceEach(s: State) {
    forall k | 0 <= k < |s.executed| :: s.executed[k].stepIndex == k
  }

  ghost predicate Inv(s: State) {
    |s.jobs| > 0 && (forall j | 0 <= j < |s.jobs| :: JobOk(s, j)) && OnceEach(s) &&
    |s.executed| == |s.jobs| - 1 + (if s.jobs[|s.jobs| - 1].taken then 1 else 0)
  }

  /** Replacing one job by another that is equally far keeps the invariant. */
  lemma SetJobKeepsInv(s: State, j: nat, job: Job)
    requires Inv(s) && j < |s.jobs| && JobOk(SetJob(s, j, job), j) && job.taken == s.jobs[j].taken
    ensures Inv(SetJob(s, j, job))
  {
    var s' := SetJob(s, j, job);
    forall i | 0 <= i < |s'.jobs|
      ensures JobOk(s', i)
    {
      assert JobOk(s, i);
    }
  }

  /** Only the last job's step is still to take effect. */
  lemma TakeKeepsInv(s: State, j: nat, now: int, stage: Stage)
    requires Inv(s) && j < |s.jobs| && !s.jobs[j].taken && j < |s.steps| && !stage.Execute?
    requires if s.steps[j].Effect? then stage.Schedule? else stage.Finish? && j + 1 == |s.steps|
    ensures Inv(Take(s, j, now, stage))
  {
    var s' := Take(s, j, now, stage);
    assert JobOk(s, j) && j == |s.jobs| - 1;
    forall i | 0 <= i < |s'.jobs|
      ensures JobOk(s', i)
    {
      assert JobOk(s, i);
    }
  }

  lemma ScheduleKeepsInv(s: State, j: nat, now: int, runAt: int)
    requires Inv(s) && j < |s.jobs| && j + 1 < |s.steps| && s.jobs[j].status == Running(now, Schedule)
    ensures var scheduled := if s.steps[j].Delay? then Take(s, j, now, Finish) else MoveTo(s, j, now, Finish);
            Inv(Enqueue(scheduled, j + 1, runAt))
  {
    var scheduled := if s.steps[j].Delay? then Take(s, j, now, Finish) else MoveTo(s, j, now, Finish);
    var s' := Enqueue(scheduled, j + 1, runAt);
    assert JobOk(s, j) && j == |s.jobs| - 1;
    forall i | 0 <= i < |s'.jobs|
      ensures JobOk(s', i)
    {
      if i < |s.jobs| {
        assert JobOk(s, i);
      }
    }
  }

  lemma RetryKeepsInv(s: State, j: nat, now: int)
    requires Inv(s) && j < |s.jobs| && s.jobs[j].status.Running? && s.jobs[j].status.stage != Finish
    requires s.jobs[j].taken ==> s.jobs[j].attempts >= MAX_JOB_ATTEMPTS
    ensures Inv(SetJob(s, j, RetryOrDead(s.jobs[j], now)))
  {
    assert JobOk(s, j);
    RetryKeepsStep(s.jobs[j], now);
    SetJobKeepsInv(s, j, RetryOrDead(s.jobs[j], now));
  }

  lemma FinishKeepsInv(s: State, j: nat, ok: bool)
    requires Inv(s) && j < |s.jobs| && Finishing(s.jobs[j]) && !Slip(s, Work(j, ok))
    ensures Inv(WorkOn(s, j, ok))
  {
    hide RetryOrDead;
    assert JobOk(s, j);
    var job := s.jobs[j];
    RetryKeepsStep(job, job.status.now);
    SetJobKeepsInv(s, j, if ok then job.(status := Done) else RetryOrDead(job, job.status.now));
  }

  lemma WorkKeepsInv(s: State, j: nat, ok: bool)
    requires Inv(s) && j < |s.jobs| && s.jobs[j].status.Running? && !Slip(s, Work(j, ok))
    ensures Inv(WorkOn(s, j, ok))
  {
    hide RetryOrDead, Inv, Take, Enqueue;
    InvJob(s, j);
    var job := s.jobs[j];
    var now := job.status.now;
    match job.status.stage
    case Execute =>
      if !ok {
        RetryKeepsInv(s, j, now);
      } else if j >= |s.steps| {
        SetJobKeepsInv(s, j, job.(status := Running(now, Finish)));
      } else if s.steps[j].Delay? {
        SetJobKeepsInv(s, j, job.(status := Running(now, Schedule)));
      } else {
        TakeKeepsInv(s, j, now, Schedule);
      }
    case Schedule =>
      if j + 1 == |s.steps| {
        if s.steps[j].Delay? {
          TakeKeepsInv(s, j, now, Finish);
        } else {
          SetJobKeepsInv(s, j, job.(status := Running(now, Finish)));
        }
      } else if ok {
        ScheduleKeepsInv(s, j, now, now + DelayOf(s.steps[j]));
      } else {
        RetryKeepsInv(s, j, now);
      }
    case Finish => FinishKeepsInv(s, j, ok);
  }

  lemma InvJob(s: State, j: nat)
    requires Inv(s) && j < |s.jobs|
    ensures JobOk(s, j)
  {
  }

  lemma StepKeepsInv(s: State, a: Action)
    requires Inv(s) && !Slip(s, a)
    ensures Inv(Do(s, a)) && Do(s, a).steps == s.steps
  {
    hide Inv, RetryOrDead;
    if a.Work? && a.j < |s.jobs| && s.jobs[a.j].status.Running? {
      WorkKeepsInv(s, a.j, a.ok);
    } else if a.Claim? && a.j < |s.jobs| && s.jobs[a.j].status.Pending? {
      InvJob(s, a.j);
      SetJobKeepsInv(s, a.j, s.jobs[a.j].(status := Running(a.now, Execute), runs := s.jobs[a.j].runs + 1));
    }
  }

  lemma {:induction false} RunKeepsInv(s: State, actions: seq<Action>)
    requires Inv(s) && SlipFree(s, actions)
    ensures Inv(Exec(s, actions)) && Exec(s, actions).steps == s.steps
    decreases |actions|
  {
    if actions != [] {
      StepKeepsInv(s, actions[0]);
      RunKeepsInv(Do(s, actions[0]), actions[1..]);
    }
  }

  // ---- exactly once, and exactly when ----------------------------------------------------------

  /** However it goes on without a slip, each step takes effect once, in order. */
  ghost predicate SafeFrom(s: State) {
    forall more :: SlipFree(s, more) ==> OnceEach(Exec(s, more))
  }

  lemma InvIsSafe(s: State)
    requires Inv(s)
    ensures SafeFrom(s)
  {
    forall more | SlipFree(s, more)
      ensures OnceEach(Exec(s, more))
    {
      RunKeepsInv(s, more);
    }
  }

  /** After a slip the job can be claimed again, and its step takes effect a second time. */
  function Repeat(j: nat, now: int): seq<Action> {
    [Claim(j, now), Work(j, true), Work(j, true)]
  }

  lemma RepeatRuns(s: State, j: nat, now: int)
    requires j < |s.jobs| && s.jobs[j].status.Pending? && s.jobs[j].runAt <= now && s.jobs[j].stepIndex < |s.steps|
    ensures Exec(s, Repeat(j, now)).executed == s.executed + [Executed(s.jobs[j].stepIndex, now)]
    ensures SlipFree(s, Repeat(j, now))
  {
    hide RetryOrDead;
    var w := Work(j, true);
    var s1 := Do(s, Claim(j, now));
    var s2 := Do(s1, w);
    var s3 := Do(s2, w);
    assert s3.executed == s.executed + [Executed(s.jobs[j].stepIndex, now)];
    hide Do;
    assert Repeat(j, now)[1..] == [w, w] && [w, w][1..] == [w] && [w][1..] == [];
    assert Exec(s2, [w]) == s3;
    assert Exec(s1, [w, w]) == s3;
    NoFailureNoSlip(s, Repeat(j, now));
  }

  lemma SlipRepeats(s: State, a: Action)
    requires Inv(s) && Slip(s, a)
    ensures !SafeFrom(Do(s, a))
  {
    var s', j := Do(s, a), a.j;
    var job := s.jobs[j];
    assert JobOk(s, j) && job.taken;
    RetryKeepsStep(job, job.status.now);
    assert s'.jobs[j] == RetryOrDead(job, job.status.now);
    var now := s'.jobs[j].runAt;
    RepeatRuns(s', j, now);
    var t := Exec(s', Repeat(j, now));
    assert t.executed[|s.executed|].stepIndex == j < |s.executed|;
  }

  /**
   * A run can be continued from each of its points so that a step takes effect twice, or out of
   * order, if and only if some call of the run fails after its job's step took effect while the job
   * has runs left.
   */
  lemma OnceEachExactlyWhenNoSlip(steps: seq<WorkflowStep>, at: int, actions: seq<Action>)
    ensures SlipFree(Triggered(steps, at), actions) <==>
            forall n | 0 <= n <= |actions| :: SafeFrom(Exec(Triggered(steps, at), actions[..n]))
  {
    SafeExactly(Triggered(steps, at), actions);
  }

  lemma {:induction false} SafeExactly(s: State, actions: seq<Action>)
    requires Inv(s)
    ensures SlipFree(s, actions) <==> forall n | 0 <= n <= |actions| :: SafeFrom(Exec(s, actions[..n]))
    decreases |actions|
  {
    hide Do, Inv, SafeFrom;
    InvIsSafe(s);
    assert Exec(s, actions[..0]) == s;
    if actions != [] {
      var a, rest := actions[0], actions[1..];
      forall n | 1 <= n <= |actions|
        ensures Exec(s, actions[..n]) == Exec(Do(s, a), rest[..n - 1])
      {
        assert actions[..n][1..] == rest[..n - 1];
      }
      if Slip(s, a) {
        SlipRepeats(s, a);
        assert rest[..0] == [] && Exec(Do(s, a), rest[..0]) == Do(s, a);
        assert !SafeFrom(Exec(s, actions[..1]));
      } else {
        StepKeepsInv(s, a);
        SafeExactly(Do(s, a), rest);
        SafePrefixes(s, actions);
      }
    }
  }

  lemma SafePrefixes(s: State, actions: seq<Action>)
    requires actions != [] && SafeFrom(s)
    ensures (forall n | 0 <= n <= |actions| :: SafeFrom(Exec(s, actions[..n]))) <==>
            (forall n | 0 <= n <= |actions| - 1 :: SafeFrom(Exec(Do(s, actions[0]), actions[1..][..n])))
  {
    hide Do, SafeFrom;
    forall n: nat | n < |actions|
      ensures Exec(s, actions[..n + 1]) == Exec(Do(s, actions[0]), actions[1..][..n])
    {
      assert actions[..n + 1][1..] == actions[1..][..n];
    }
    assert Exec(s, actions[..0]) == s;
    if forall n | 0 <= n <= |actions| :: SafeFrom(Exec(s, actions[..n])) {
      forall n | 0 <= n <= |actions| - 1
        ensures SafeFrom(Exec(Do(s, actions[0]), actions[1..][..n]))
      {
        assert SafeFrom(Exec(s, actions[..n + 1]));
      }
    }
    if forall n | 0 <= n <= |actions| - 1 :: SafeFrom(Exec(Do(s, actions[0]), actions[1..][..n])) {
      forall n | 0 <= n <= |actions|
        ensures SafeFrom(Exec(s, actions[..n]))
      {
        if n > 0 {
          assert SafeFrom(Exec(Do(s, actions[0]), actions[1..][..n - 1]));
        }
      }
    }
  }

  // ---- what every run without a slip guarantees -------------------------------------------------

  /** Steps take effect in order, each exactly once; with StepsOnTime, none too early. */
  lemma StepsInOrder(steps: seq<WorkflowStep>, at: int, actions: seq<Action>, k: nat)
    requires SlipFree(Triggered(steps, at), actions) && k < |Exec(Triggered(steps, at), actions).executed|
    ensures k < |steps| && Exec(Triggered(steps, at), actions).executed[k].stepIndex == k
  {
    RunKeepsInv(Triggered(steps, at), actions);
    StepsOnTime(steps, at, actions, k);
  }

  ghost predicate StillToRun(s: State, j: nat) {
    j < |s.jobs| && (s.jobs[j].status.Pending? || (s.jobs[j].status.Running? && s.jobs[j].status.stage.Execute?))
  }

  /** At most one job of the chain still has its step to run. */
  lemma OneStepAtATime(steps: seq<WorkflowStep>, at: int, actions: seq<Action>, i: nat, j: nat)
    requires SlipFree(Triggered(steps, at), actions)
    requires var s := Exec(Triggered(steps, at), actions);
             StillToRun(s, i) && StillToRun(s, j)
    ensures i == j
  {
    RunKeepsInv(Triggered(steps, at), actions);
    var s := Exec(Triggered(steps, at), actions);
    assert JobOk(s, i) && JobOk(s, j);
  }

  ghost predicate Live(job: Job) {
    job.status.Pending? || job.status.Running?
  }

  /** Of two live rows, the earlier is exactly one whose done-mark is still to come. */
  lemma LiveRows(steps: seq<WorkflowStep>, at: int, actions: seq<Action>, i: nat, j: nat)
    requires SlipFree(Triggered(steps, at), actions)
    requires i < j < |Exec(Triggered(steps, at), actions).jobs|
    ensures var s := Exec(Triggered(steps, at), actions);
            Live(s.jobs[i]) && Live(s.jobs[j]) <==> Finishing(s.jobs[i]) && Live(s.jobs[j])
  {
    RunKeepsInv(Triggered(steps, at), actions);
    assert JobOk(Exec(Triggered(steps, at), actions), i);
  }

  /** When no job is waiting or running, the whole workflow took effect, or a job of it is dead. */
  lemma Outcome(steps: seq<WorkflowStep>, at: int, actions: seq<Action>)
    requires SlipFree(Triggered(steps, at), actions)
    requires forall job | job in Exec(Triggered(steps, at), actions).jobs :: !Live(job)
    ensures var s := Exec(Triggered(steps, at), actions);
            |s.jobs| > 0 && (|s.executed| == |steps| || s.jobs[|s.jobs| - 1].status.Dead?)
  {
    RunKeepsInv(Triggered(steps, at), actions);
    var s := Exec(Triggered(steps, at), actions);
    assert s.jobs[|s.jobs| - 1] in s.jobs && JobOk(s, |s.jobs| - 1);
  }

  // ---- what a job does -------------------------------------------------------------------------

  /**
   * A failing attempt puts the job off by the waits of the schedule, counted by its earlier attempts, and
   * nobody can claim it before that; the seventh failure buries it. Nothing else changes.
   */
  lemma FailureSchedules(s: State, j: nat, t: int)
    requires j < |s.jobs| && s.jobs[j].status.Running? && s.jobs[j].status.stage == Execute
    ensures var job, now := s.jobs[j], s.jobs[j].status.now;
            var s' := Do(s, Work(j, false));
            && |s'.jobs| == |s.jobs| && (forall i | 0 <= i < |s.jobs| && i != j :: s'.jobs[i] == s.jobs[i])
            && s'.executed == s.executed && s'.steps == s.steps
            && (job.attempts < 6 ==>
                 var due := now + [1, 2, 4, 8, 16, 30][job.attempts] * 60_000;
                 && s'.jobs[j] == job.(status := Pending, attempts := job.attempts + 1, runAt := due)
                 && (t < due ==> Do(s', Claim(j, t)) == s')
                 && (t >= due ==> Do(s', Claim(j, t)).jobs[j].status == Running(t, Execute)))
            && (job.attempts >= 6 ==> s'.jobs[j].status == Dead && Do(s', Claim(j, t)) == s')
  {
    BackoffSchedule(s.jobs[j].attempts, s.jobs[j].status.now);
    hide NextRetry;
  }

  lemma ExecFirst(s: State, a: Action, rest: seq<Action>)
    ensures Exec(s, [a] + rest) == Exec(Do(s, a), rest)
  {
    assert ([a] + rest)[1..] == rest;
  }

  lemma {:induction false} ExecConcat(s: State, a: seq<Action>, b: seq<Action>)
    ensures Exec(s, a + b) == Exec(Exec(s, a), b)
    decreases |a|
  {
    if a == [] {
      assert a + b == b;
    } else {
      ExecConcat(Do(s, a[0]), a[1..], b);
      assert (a + b)[1..] == a[1..] + b;
    }
  }

  /** A job from claim to done-mark, nothing failing. */
  function RunJob(j: nat, t: int): seq<Action> {
    [Claim(j, t)] + ([Work(j, true)] + ([Work(j, true)] + ([Work(j, true)] + [])))
  }

  function NextJobs(s: State, i: nat, t: int): seq<Job>
    requires i < |s.steps|
  {
    if i + 1 < |s.steps| then [Job(i + 1, Pending, 0, t + DelayOf(s.steps[i]), 0, false)] else []
  }

  lemma ClaimStep(s: State, j: nat, t: int)
    requires j < |s.jobs| && s.jobs[j].status == Pending && s.jobs[j].runAt <= t
    ensures Do(s, Claim(j, t)) == SetJob(s, j, s.jobs[j].(status := Running(t, Execute), runs := s.jobs[j].runs + 1))
  {
  }

  lemma ExecuteStep(s: State, j: nat, t: int)
    requires j < |s.jobs| && s.jobs[j].status == Running(t, Execute) && s.jobs[j].stepIndex < |s.steps|
    ensures var job, effect := s.jobs[j], s.steps[s.jobs[j].stepIndex] == Effect;
            Do(s, Work(j, true)) ==
            SetJob(s, j, job.(status := Running(t, Schedule), taken := job.taken || effect)).(
              executed := s.executed + if effect then [Executed(job.stepIndex, t)] else [])
  {
    hide RetryOrDead;
  }

  lemma ScheduleStep(s: State, j: nat, t: int)
    requires j < |s.jobs| && s.jobs[j].status == Running(t, Schedule) && s.jobs[j].stepIndex < |s.steps|
    ensures var job, effect := s.jobs[j], s.steps[s.jobs[j].stepIndex] == Effect;
            var s' := SetJob(s, j, job.(status := Running(t, Finish), taken := job.taken || !effect));
            Do(s, Work(j, true)) ==
            s'.(jobs := s'.jobs + NextJobs(s, job.stepIndex, t),
                executed := s.executed + if effect then [] else [Executed(job.stepIndex, t)])
  {
    hide RetryOrDead;
  }

  lemma FinishStep(s: State, j: nat, t: int)
    requires j < |s.jobs| && s.jobs[j].status == Running(t, Finish)
    ensures Do(s, Work(j, true)) == SetJob(s, j, s.jobs[j].(status := Done))
  {
    hide RetryOrDead;
  }

  /** The job's step takes effect at the time of the claim, and the next job is due after its delay. */
  lemma JobRuns(s: State, j: nat, t: int)
    requires j < |s.jobs| && s.jobs[j].status == Pending && s.jobs[j].runAt <= t && s.jobs[j].stepIndex < |s.steps|
    ensures var job := s.jobs[j];
            Exec(s, RunJob(j, t)) ==
            s.(jobs := s.jobs[j := job.(status := Done, runs := job.runs + 1, taken := true)]
                       + NextJobs(s, job.stepIndex, t),
               executed := s.executed + [Executed(job.stepIndex, t)])
  {
    hide Exec, Do, NextJobs;
    var w, i := Work(j, true), s.jobs[j].stepIndex;
    var s1 := Do(s, Claim(j, t));
    ClaimStep(s, j, t);
    var s2 := Do(s1, w);
    ExecuteStep(s1, j, t);
    var s3 := Do(s2, w);
    ScheduleStep(s2, j, t);
    SameNext(s, s2, i, t);
    var s4 := Do(s3, w);
    FinishStep(s3, j, t);
    assert s4.executed == s.executed + [Executed(i, t)];
    ExecFirst(s, Claim(j, t), [w] + ([w] + ([w] + [])));
    ExecFirst(s1, w, [w] + ([w] + []));
    ExecFirst(s2, w, [w] + []);
    ExecFirst(s3, w, []);
    ExecNone(s4);
  }

  lemma SameNext(s: State, s': State, i: nat, t: int)
    requires s'.steps == s.steps && i < |s.steps|
    ensures NextJobs(s', i, t) == NextJobs(s, i, t)
  {
  }

  lemma ExecNone(s: State)
    ensures Exec(s, []) == s
  {
  }

  /** The first k jobs done on time, and the next one waiting for its time. */
  ghost predicate OnTimeSoFar(steps: seq<WorkflowStep>, at: int, s: State, k: nat) {
    && s.steps == steps && k <= |steps| && |s.executed| == k
    && (forall i | 0 <= i < k :: s.executed[i] == Executed(i, at + TotalDelay(steps, i)))
    && |s.jobs| == (if k < |steps| then k + 1 else k) && (forall i | 0 <= i < k :: s.jobs[i].status == Done)
    && (k < |steps| ==> s.jobs[k] == Job(k, Pending, 0, at + TotalDelay(steps, k), 0, false))
  }

  /** One worker that never fails runs the first k steps, each as soon as it is due. */
  function RunFirst(steps: seq<WorkflowStep>, at: int, k: nat): seq<Action>
    requires k <= |steps|
  {
    if k == 0 then [] else RunFirst(steps, at, k - 1) + RunJob(k - 1, at + TotalDelay(steps, k - 1))
  }

  lemma OneMoreOnTime(steps: seq<WorkflowStep>, at: int, s: State, k: nat)
    requires OnTimeSoFar(steps, at, s, k) && k < |steps|
    ensures OnTimeSoFar(steps, at, Exec(s, RunJob(k, at + TotalDelay(steps, k))), k + 1)
  {
    hide Exec, Do, RunJob;
    JobRuns(s, k, at + TotalDelay(steps, k));
  }

  lemma TriggeredOnTime(steps: seq<WorkflowStep>, at: int)
    requires 0 < |steps|
    ensures OnTimeSoFar(steps, at, Triggered(steps, at), 0)
  {
    assert TotalDelay(steps, 0) == 0;
  }

  /** So every workflow can run to its end, each step exactly at the trigger plus the delays before it. */
  lemma {:induction false} ChainCompletes(steps: seq<WorkflowStep>, at: int, k: nat)
    requires 0 < |steps| && k <= |steps|
    ensures OnTimeSoFar(steps, at, Exec(Triggered(steps, at), RunFirst(steps, at, k)), k)
  {
    hide Exec, OnTimeSoFar, RunJob, TotalDelay;
    if k == 0 {
      ExecNone(Triggered(steps, at));
      TriggeredOnTime(steps, at);
    } else {
      ChainCompletes(steps, at, k - 1);
      var s := Exec(Triggered(steps, at), RunFirst(steps, at, k - 1));
      ExecConcat(Triggered(steps, at), RunFirst(steps, at, k - 1), RunJob(k - 1, at + TotalDelay(steps, k - 1)));
      OneMoreOnTime(steps, at, s, k - 1);
    }
  }

  // ---- two rows at once ------------------------------------------------------------------------

  /**
   * With at least two steps there is a run without any failure in which two rows run at once: the
   * next job is enqueued before the current one is marked done, and another worker claims it.
   */
  lemma TwoRowsRunning(steps: seq<WorkflowStep>, at: int)
    requires |steps| >= 2
    ensures exists actions ::
              var s := Exec(Triggered(steps, at), actions);
              SlipFree(Triggered(steps, at), actions) &&
              |s.jobs| == 2 && s.jobs[0].status.Running? && s.jobs[1].status.Running?
  {
    hide RetryOrDead, NextRetry;
    var w, c := Work(0, true), Claim(1, at + DelayOf(steps[0]));
    var s0 := Triggered(steps, at);
    var s1 := Do(s0, Claim(0, at));
    assert s1.jobs == [Job(0, Running(at, Execute), 0, at, 1, false)];
    var s2 := Do(s1, w);
    assert s2.jobs == [Job(0, Running(at, Schedule), 0, at, 1, steps[0].Effect?)];
    var s3 := Do(s2, w);
    assert |s3.jobs| == 2 && s3.jobs[0].status == Running(at, Finish);
    assert s3.jobs[1] == Job(1, Pending, 0, at + DelayOf(steps[0]), 0, false);
    var s4 := Do(s3, c);
    assert |s4.jobs| == 2 && s4.jobs[0].status.Running? && s4.jobs[1].status.Running?;
    hide Do;
    var actions := [Claim(0, at), w, w, c];
    assert actions[1..] == [w, w, c] && [w, w, c][1..] == [w, c] && [w, c][1..] == [c] && [c][1..] == [];
    assert Exec(s3, [c]) == s4;
    assert Exec(s2, [w, c]) == s4;
    assert Exec(s1, [w, w, c]) == s4;
    assert Exec(s0, actions) == s4;
    NoFailureNoSlip(s0, actions);
  }
}
