/** The lifecycle job scheduler: jobs kept in insertion order under unique
    ids, a periodic pass that runs every due job, and the state changes a run
    makes on success and on failure. Instants are milliseconds since the
    epoch; the handler's outcome, the clock and the calendar are parameters. */
module Scheduler {
  import opened Common

  datatype JobStatus = Pending | Running | Completed | Failed | Cancelled

  /** How often a job repeats; `OtherFrequency` stands for any other value,
      which falls to the hourly default. */
  datatype Frequency = Once | Hourly | Daily | Weekly | Monthly | OtherFrequency

  datatype Job = Job(
    id: string,
    frequency: Frequency,
    cronExpression: Option<string>,
    enabled: bool,
    status: JobStatus,
    nextRunTime: int,
    lastRunTime: Option<int>,
    retryCount: nat,
    maxRetries: int)

  /** What a caller supplies to `scheduleJob`. */
  datatype JobRequest = JobRequest(
    frequency: Frequency,
    cronExpression: Option<string>,
    enabled: bool,
    nextRunTime: int,
    maxRetries: Option<int>)

  const HourMs: int := 60 * 60 * 1000
  const DayMs: int := 24 * HourMs
  const WeekMs: int := 7 * DayMs
  /** The delay before a failed job is tried again. */
  const RetryDelayMs: int := 5 * 60 * 1000
  /** The retry limit of a job that names none, when the scheduler's
      configuration names none either. */
  const DefaultMaxRetries: int := 3

  /** No two jobs share an id, as in the `Map` keyed by id. */
  ghost predicate UniqueIds(jobs: seq<Job>) {
    forall j, k :: 0 <= j < k < |jobs| ==> jobs[j].id != jobs[k].id
  }

  /** The position of the job with id `id`, if any. */
  function IndexOf(jobs: seq<Job>, id: string): (r: Option<nat>)
    ensures r.Some? ==> r.value < |jobs| && jobs[r.value].id == id
    ensures r.Some? ==> forall k :: 0 <= k < r.value ==> jobs[k].id != id
    ensures r.None? <==> forall k :: 0 <= k < |jobs| ==> jobs[k].id != id
    decreases |jobs|
  {
    if |jobs| == 0 then None
    else if jobs[0].id == id then Some(0)
    else match IndexOf(jobs[1..], id)
      case None => None
      case Some(k) => Some(k + 1)
  }

  /** `getJob`. */
  function GetJob(jobs: seq<Job>, id: string): (r: Option<Job>)
    ensures r.Some? <==> exists k :: 0 <= k < |jobs| && jobs[k].id == id
    ensures r.Some? ==> r.value in jobs && r.value.id == id
  {
    match IndexOf(jobs, id)
    case None => None
    case Some(k) => Some(jobs[k])
  }

  /** `jobs.set(id, job)`: a new id is appended, a known id keeps its place. */
  function SetJob(jobs: seq<Job>, job: Job): (r: seq<Job>)
    ensures IndexOf(jobs, job.id).None? ==> r == jobs + [job]
    ensures IndexOf(jobs, job.id).Some? ==> r == jobs[IndexOf(jobs, job.id).value := job]
  {
    match IndexOf(jobs, job.id)
    case None => jobs + [job]
    case Some(k) => jobs[k := job]
  }

  /** Setting a job keeps the ids unique and puts the job under its id. */
  lemma SetJobKeepsIds(jobs: seq<Job>, job: Job)
    ensures UniqueIds(jobs) ==> UniqueIds(SetJob(jobs, job))
    ensures GetJob(SetJob(jobs, job), job.id) == Some(job)
    ensures forall id :: id != job.id ==> GetJob(SetJob(jobs, job), id) == GetJob(jobs, id)
  {
    var r := SetJob(jobs, job);
    forall id | id != job.id
      ensures GetJob(r, id) == GetJob(jobs, id)
    {
      SameIdsSameIndex(jobs, r, id);
    }
    if IndexOf(jobs, job.id).None? {
      assert IndexOf(r, job.id) == Some(|jobs|) by {
        IndexOfFirst(r, job.id, |jobs|);
      }
    } else {
      IndexOfFirst(r, job.id, IndexOf(jobs, job.id).value);
    }
  }

  /** The first position holding an id is the one `IndexOf` finds. */
  lemma {:induction false} IndexOfFirst(jobs: seq<Job>, id: string, i: nat)
    requires i < |jobs| && jobs[i].id == id && forall k :: 0 <= k < i ==> jobs[k].id != id
    ensures IndexOf(jobs, id) == Some(i)
    decreases i
  {
    if i > 0 {
      IndexOfFirst(jobs[1..], id, i - 1);
    }
  }

  /** Two lists whose ids agree up to one appended or replaced job find every
      other id at the same place holding the same job. */
  lemma SameIdsSameIndex(jobs: seq<Job>, r: seq<Job>, id: string)
    requires |jobs| <= |r|
    requires forall k :: 0 <= k < |jobs| ==> (r[k].id == id <==> jobs[k].id == id)
    requires forall k :: 0 <= k < |jobs| && jobs[k].id == id ==> r[k] == jobs[k]
    requires forall k :: |jobs| <= k < |r| ==> r[k].id != id
    ensures GetJob(r, id) == GetJob(jobs, id)
  {
    match IndexOf(jobs, id)
    case None =>
    case Some(i) =>
      IndexOfFirst(r, id, i);
  }

  /** `scheduleJob`: a pending job with no retries yet under the id drawn for
      it, with the scheduler's default retry limit when the request names
      none. `configuredRetries` is the constructor's `defaultMaxRetries`. */
  function ScheduleJob(jobs: seq<Job>, request: JobRequest, id: string, configuredRetries: Option<int>): (r: (seq<Job>, Job))
    ensures r.1.id == id && r.1.status == Pending && r.1.retryCount == 0
    ensures request.maxRetries.Some? ==> r.1.maxRetries == request.maxRetries.value
    ensures request.maxRetries.None? && configuredRetries.Some? ==> r.1.maxRetries == configuredRetries.value
    ensures request.maxRetries.None? && configuredRetries.None? ==> r.1.maxRetries == DefaultMaxRetries
    ensures r.1.frequency == request.frequency && r.1.enabled == request.enabled && r.1.nextRunTime == request.nextRunTime
    ensures UniqueIds(jobs) ==> UniqueIds(r.0) && GetJob(r.0, id) == Some(r.1)
    ensures UniqueIds(jobs) && GetJob(jobs, id).None? ==> |r.0| == |jobs| + 1
  {
    var job := Job(id, request.frequency, request.cronExpression, request.enabled, Pending,
                   request.nextRunTime, None, 0, request.maxRetries.GetOr(configuredRetries.GetOr(DefaultMaxRetries)));
    SetJobKeepsIds(jobs, job);
    (SetJob(jobs, job), job)
  }

  /** `cancelJob`: false for an unknown or running job; otherwise the job is
      cancelled and disabled and nothing else changes. */
  function CancelJob(jobs: seq<Job>, running: set<string>, id: string): (r: (bool, seq<Job>))
    ensures r.0 <==> GetJob(jobs, id).Some? && id !in running
    ensures !r.0 ==> r.1 == jobs
    ensures |r.1| == |jobs|
    ensures forall k :: 0 <= k < |jobs| && jobs[k].id != id ==> r.1[k] == jobs[k]
    ensures r.0 ==> exists k :: 0 <= k < |jobs| && jobs[k].id == id
                      && r.1[k] == jobs[k].(status := Cancelled, enabled := false)
  {
    match IndexOf(jobs, id)
    case None => (false, jobs)
    case Some(k) =>
      if id in running then (false, jobs)
      else (true, jobs[k := jobs[k].(status := Cancelled, enabled := false)])
  }

  /** A cancelled job stays in the list with its id. */
  lemma CancelKeepsIds(jobs: seq<Job>, running: set<string>, id: string)
    requires UniqueIds(jobs)
    ensures UniqueIds(CancelJob(jobs, running, id).1)
    ensures CancelJob(jobs, running, id).0 ==> GetJob(CancelJob(jobs, running, id).1, id).value.status == Cancelled
  {
    var r := CancelJob(jobs, running, id).1;
    assert forall k :: 0 <= k < |jobs| ==> r[k].id == jobs[k].id;
    if CancelJob(jobs, running, id).0 {
      var k := IndexOf(jobs, id).value;
      IndexOfFirst(r, id, k);
    }
  }

  /** `calculateNextRunTime`: the cron expression when it is truthy (an empty
      one counts as none), else the frequency's step from `now`. `cronNext`
      and `addMonth` are the cron parser and the calendar's one-month step. */
  function NextRunTime(job: Job, now: int, cronNext: (string, int) -> int, addMonth: int -> int): (t: int)
    ensures Truthy(job.cronExpression) ==> t == cronNext(job.cronExpression.value, now)
    ensures !Truthy(job.cronExpression) && job.frequency == Hourly ==> t == now + 60 * 60 * 1000
    ensures !Truthy(job.cronExpression) && job.frequency == Daily ==> t == now + 24 * 60 * 60 * 1000
    ensures !Truthy(job.cronExpression) && job.frequency == Weekly ==> t == now + 7 * 24 * 60 * 60 * 1000
    ensures !Truthy(job.cronExpression) && job.frequency == Monthly ==> t == addMonth(now)
    ensures !Truthy(job.cronExpression) && (job.frequency == Once || job.frequency == OtherFrequency) ==> t == now + 60 * 60 * 1000
    ensures !Truthy(job.cronExpression) && job.frequency != Monthly ==> t > now
  {
    if Truthy(job.cronExpression) then cronNext(job.cronExpression.value, now)
    else match job.frequency
      case Hourly => now + HourMs
      case Daily => now + DayMs
      case Weekly => now + WeekMs
      case Monthly => addMonth(now)
      case _ => now + HourMs
  }

  /** Without a truthy cron expression the next run time does not depend on
      the cron parser, and an empty expression schedules exactly as none. */
  lemma EmptyCronUsesFrequency(job: Job, now: int, cronNext: (string, int) -> int, other: (string, int) -> int, addMonth: int -> int)
    requires !Truthy(job.cronExpression)
    ensures NextRunTime(job, now, cronNext, addMonth) == NextRunTime(job, now, other, addMonth)
    ensures NextRunTime(job, now, cronNext, addMonth) == NextRunTime(job.(cronExpression := None), now, cronNext, addMonth)
    ensures NextRunTime(job.(cronExpression := Some("")), now, cronNext, addMonth) == NextRunTime(job, now, cronNext, addMonth)
  {
  }

  /** The clock and calendar a run uses. */
  datatype Clock = Clock(now: int, cronNext: (string, int) -> int, addMonth: int -> int)

  /** The state a job is left in by `runJob`, given whether its handler
      finished without throwing. */
  function RunJob(job: Job, succeeded: bool, clock: Clock): (r: Job)
    ensures r.id == job.id && r.frequency == job.frequency && r.cronExpression == job.cronExpression
    ensures r.maxRetries == job.maxRetries
    ensures r.status != Running && r.status != Cancelled
    ensures succeeded ==> r.retryCount == job.retryCount && r.enabled == job.enabled && r.lastRunTime == Some(clock.now)
    ensures succeeded ==> (r.status == Completed <==> job.frequency == Once)
    ensures succeeded && job.frequency == Once ==> r.nextRunTime == job.nextRunTime
    ensures succeeded && job.frequency != Once ==> r.status == Pending && r.nextRunTime == NextRunTime(job, clock.now, clock.cronNext, clock.addMonth)
    ensures !succeeded ==> r.retryCount == job.retryCount + 1 && r.lastRunTime == job.lastRunTime
    ensures !succeeded ==> (r.status == Failed <==> job.retryCount + 1 >= job.maxRetries)
    ensures !succeeded && r.status == Failed ==> !r.enabled
    ensures !succeeded && r.status != Failed ==> r.status == Pending && r.enabled == job.enabled && r.nextRunTime == clock.now + RetryDelayMs
  {
    var started := job.(status := Running);
    if succeeded then
      var done := started.(status := Completed, lastRunTime := Some(clock.now));
      if job.frequency != Once then
        done.(nextRunTime := NextRunTime(job, clock.now, clock.cronNext, clock.addMonth), status := Pending)
      else done
    else
      var tried := started.(retryCount := job.retryCount + 1);
      if tried.retryCount >= job.maxRetries then tried.(status := Failed, enabled := false)
      else tried.(status := Pending, nextRunTime := clock.now + RetryDelayMs)
  }

  /** A job fails for good only after `maxRetries` failed runs in a row: the
      failures before the last one each leave it pending. */
  lemma {:induction false} FailuresExhaustRetries(job: Job, n: nat, clock: Clock)
    requires job.status == Pending && job.retryCount == 0 && job.maxRetries >= 1
    requires n < job.maxRetries
    ensures var r := FailRepeatedly(job, n, clock);
            r.status == Pending && r.retryCount == n && r.enabled == job.enabled && r.maxRetries == job.maxRetries
    decreases n
  {
    if n > 0 {
      FailuresExhaustRetries(job, n - 1, clock);
      var before := FailRepeatedly(job, n - 1, clock);
      assert FailRepeatedly(job, n, clock) == RunJob(before, false, clock);
    }
  }

  /** The job after `n` failed runs in a row. */
  function FailRepeatedly(job: Job, n: nat, clock: Clock): Job
    decreases n
  {
    if n == 0 then job else RunJob(FailRepeatedly(job, n - 1, clock), false, clock)
  }

  /** The failure that brings the count to `maxRetries` fails the job and
      disables it. */
  lemma LastFailureDisables(job: Job, clock: Clock)
    requires job.status == Pending && job.retryCount == 0 && job.maxRetries >= 1
    ensures var r := FailRepeatedly(job, job.maxRetries as nat, clock);
            r.status == Failed && !r.enabled && r.retryCount == job.maxRetries
  {
    FailuresExhaustRetries(job, job.maxRetries - 1, clock);
    var before := FailRepeatedly(job, job.maxRetries - 1, clock);
    assert FailRepeatedly(job, job.maxRetries as nat, clock) == RunJob(before, false, clock);
  }

  /** What a pass of `checkJobs` runs: an enabled, not cancelled, not running
      job whose next run time has come. */
  predicate DueAsWritten(job: Job, running: set<string>, now: int) {
    job.enabled && job.status != Cancelled && job.id !in running && job.nextRunTime <= now
  }

  /** `checkJobs` as written: every due job, in insertion order, is run once
      with the outcome its handler gives; every other job is left as it is.
      `running` holds the jobs an overlapping pass is running. */
  function CheckJobsAsWritten(jobs: seq<Job>, running: set<string>, outcome: Job -> bool, clock: Clock): (r: seq<Job>)
    ensures |r| == |jobs|
    ensures forall k :: 0 <= k < |jobs| ==> r[k].id == jobs[k].id
    ensures forall k :: 0 <= k < |jobs| && !DueAsWritten(jobs[k], running, clock.now) ==> r[k] == jobs[k]
    ensures forall k :: 0 <= k < |jobs| && DueAsWritten(jobs[k], running, clock.now) ==> r[k] == RunJob(jobs[k], outcome(jobs[k]), clock)
  {
    seq(|jobs|, k requires 0 <= k < |jobs| =>
      if DueAsWritten(jobs[k], running, clock.now) then RunJob(jobs[k], outcome(jobs[k]), clock) else jobs[k])
  }

  /** A one-off job is run again by every pass after it completes: completion
      leaves it enabled with its old run time, so it stays due. */
  lemma OnceJobRerun(job: Job, running: set<string>, clock: Clock, later: Clock)
    requires job.frequency == Once && DueAsWritten(job, running, clock.now)
    requires clock.now <= later.now
    ensures RunJob(job, true, clock).status == Completed
    ensures DueAsWritten(RunJob(job, true, clock), running, later.now)
  {
  }

  /** A concrete case: a one-off job due at instant 0 runs in the pass at 0
      and again in the pass at 60000. */
  lemma OnceJobRunsTwice(outcome: Job -> bool, cronNext: (string, int) -> int, addMonth: int -> int)
    requires forall j :: outcome(j)
    ensures var job := Job("job-1", Once, None, true, Pending, 0, None, 0, 3);
            var first := CheckJobsAsWritten([job], {}, outcome, Clock(0, cronNext, addMonth));
            var second := CheckJobsAsWritten(first, {}, outcome, Clock(60000, cronNext, addMonth));
            && first[0].status == Completed && first[0].lastRunTime == Some(0)
            && second[0].lastRunTime == Some(60000)
  {
  }

  /** What a pass should run: a due job that has not completed. Only a
      one-off job ends completed, so recurring jobs are unaffected. */
  predicate Due(job: Job, running: set<string>, now: int) {
    DueAsWritten(job, running, now) && job.status != Completed
  }

  /** `checkJobs` with completed one-off jobs left alone. */
  function CheckJobs(jobs: seq<Job>, running: set<string>, outcome: Job -> bool, clock: Clock): (r: seq<Job>)
    ensures |r| == |jobs|
    ensures forall k :: 0 <= k < |jobs| ==> r[k].id == jobs[k].id
    ensures forall k :: 0 <= k < |jobs| && !Due(jobs[k], running, clock.now) ==> r[k] == jobs[k]
    ensures forall k :: 0 <= k < |jobs| && Due(jobs[k], running, clock.now) ==> r[k] == RunJob(jobs[k], outcome(jobs[k]), clock)
  {
    seq(|jobs|, k requires 0 <= k < |jobs| =>
      if Due(jobs[k], running, clock.now) then RunJob(jobs[k], outcome(jobs[k]), clock) else jobs[k])
  }

  /** The passes differ only on completed jobs: on every other job the
      corrected pass does what the written one does. */
  lemma CheckJobsAgreesOnOpenJobs(jobs: seq<Job>, running: set<string>, outcome: Job -> bool, clock: Clock, k: nat)
    requires k < |jobs| && jobs[k].status != Completed
    ensures CheckJobs(jobs, running, outcome, clock)[k] == CheckJobsAsWritten(jobs, running, outcome, clock)[k]
  {
  }

  /** A series of passes at the given clocks. */
  function Passes(jobs: seq<Job>, running: set<string>, outcome: Job -> bool, clocks: seq<Clock>): (r: seq<Job>)
    ensures |r| == |jobs|
    decreases |clocks|
  {
    if |clocks| == 0 then jobs
    else Passes(CheckJobs(jobs, running, outcome, clocks[0]), running, outcome, clocks[1..])
  }

  /** A one-off job runs at most once: once it has completed, no later pass
      touches it again. */
  lemma {:induction false} CompletedJobStays(jobs: seq<Job>, running: set<string>, outcome: Job -> bool, clocks: seq<Clock>, k: nat)
    requires k < |jobs| && jobs[k].status == Completed
    ensures Passes(jobs, running, outcome, clocks)[k] == jobs[k]
    decreases |clocks|
  {
    if |clocks| > 0 {
      var next := CheckJobs(jobs, running, outcome, clocks[0]);
      assert next[k] == jobs[k];
      CompletedJobStays(next, running, outcome, clocks[1..], k);
    }
  }

  /** A one-off job that succeeds when first due is completed after the pass
      and keeps that state through every later pass. */
  lemma OnceJobRunsOnce(jobs: seq<Job>, running: set<string>, outcome: Job -> bool, clock: Clock, clocks: seq<Clock>, k: nat)
    requires k < |jobs| && jobs[k].frequency == Once && Due(jobs[k], running, clock.now) && outcome(jobs[k])
    ensures var first := CheckJobs(jobs, running, outcome, clock);
            && first[k].status == Completed && first[k].lastRunTime == Some(clock.now)
            && Passes(first, running, outcome, clocks)[k] == first[k]
  {
    var first := CheckJobs(jobs, running, outcome, clock);
    CompletedJobStays(first, running, outcome, clocks, k);
  }

  /** `getJobsByStatus`. */
  function JobsByStatus(jobs: seq<Job>, status: JobStatus): (r: seq<Job>)
    ensures forall j :: j in r <==> j in jobs && j.status == status
  {
    Filter(jobs, (j: Job) => j.status == status)
  }

  /** `getStats`: the number of jobs in each state and the ids being run. */
  datatype Stats = Stats(total: nat, pending: nat, running: nat, completed: nat, failed: nat, cancelled: nat, runningJobIds: set<string>)

  function GetStats(jobs: seq<Job>, running: set<string>): (s: Stats)
    ensures s.total == |jobs| && s.runningJobIds == running
    ensures s.pending == |JobsByStatus(jobs, Pending)| && s.running == |JobsByStatus(jobs, Running)|
    ensures s.completed == |JobsByStatus(jobs, Completed)| && s.failed == |JobsByStatus(jobs, Failed)|
    ensures s.cancelled == |JobsByStatus(jobs, Cancelled)|
  {
    Stats(|jobs|, |JobsByStatus(jobs, Pending)|, |JobsByStatus(jobs, Running)|, |JobsByStatus(jobs, Completed)|,
          |JobsByStatus(jobs, Failed)|, |JobsByStatus(jobs, Cancelled)|, running)
  }

  /** Every job is in exactly one state, so the five counts add up to the total. */
  lemma {:induction false} StatsAddUp(jobs: seq<Job>, running: set<string>)
    ensures var s := GetStats(jobs, running);
            s.pending + s.running + s.completed + s.failed + s.cancelled == s.total
    decreases |jobs|
  {
    if |jobs| > 0 {
      StatsAddUp(jobs[1..], running);
    }
  }
}
