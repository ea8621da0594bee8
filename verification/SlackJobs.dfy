/**
 * The Slack backfill job table and its SQL statements (workflows/slack/shared.py,
 * `enqueue_backfill_job`, `seed_channel_bootstrap_job`, `widen_channel_bootstrap_job`,
 * `claim_backfill_jobs`, `touch_backfill_job_started`, `mark_backfill_job_*`).
 */
module SlackJobs {
  import opened Common

  type Time = int

  datatype Status = Pending | Running | Completed | Failed

  datatype JobType = Bootstrap | Continuation | ThreadRefresh

  /** The stored JSON payload; `skipped` is the terminal-skip marker, `cursor` a position in the listing. */
  datatype Payload = Payload(
    cursor: Option<nat>, oldest: Option<Time>, latest: Option<Time>, lookback: int, thread: string, skipped: bool)

  datatype Job = Job(jobType: JobType, status: Status, payload: Payload, attempts: nat, lastStarted: Option<Time>)

  type Jobs = map<string, Job>

  /** BACKFILL_JOB_STALE_RUNNING_HOURS, in seconds. */
  const STALE := 2 * 60 * 60

  /** The guard of the conflict update: `refreshPending == false` leaves in-flight rows alone. */
  predicate MayRefresh(status: Status, refreshCompleted: bool, refreshPending: bool) {
    if refreshPending then refreshCompleted || !status.Completed?
    else status.Failed? || (refreshCompleted && status.Completed?)
  }

  /** `enqueue_backfill_job`; an empty payload is ignored. */
  function Enqueue(jobs: Jobs, key: string, jobType: JobType, payload: Option<Payload>,
                   refreshCompleted: bool, refreshPending: bool): (result: Jobs)
    ensures forall k :: k != key ==> (k in result <==> k in jobs) && (k in jobs ==> result[k] == jobs[k])
    ensures payload.Some? && !refreshPending && refreshCompleted ==>
      key in result && (result[key].status.Pending? || result[key].status.Running?)
    ensures !refreshPending && key in jobs && (jobs[key].status.Pending? || jobs[key].status.Running?) ==>
      result == jobs
    ensures payload.Some? && (key in jobs ==> MayRefresh(jobs[key].status, refreshCompleted, refreshPending)) ==>
      key in result && result[key].status.Pending? && result[key].payload == payload.value && result[key].jobType == jobType
    ensures payload.Some? && (key in jobs ==> MayRefresh(jobs[key].status, refreshCompleted, refreshPending)) ==>
      result[key].attempts == if key in jobs && jobs[key].status.Running? then jobs[key].attempts else 0
    ensures payload.None? || (key in jobs && !MayRefresh(jobs[key].status, refreshCompleted, refreshPending)) ==>
      result == jobs
  {
    if payload.None? then jobs
    else if key !in jobs then jobs[key := Job(jobType, Pending, payload.value, 0, None)]
    else if MayRefresh(jobs[key].status, refreshCompleted, refreshPending) then
      jobs[key := Job(jobType, Pending, payload.value,
                      if jobs[key].status.Running? then jobs[key].attempts else 0, jobs[key].lastStarted)]
    else jobs
  }

  /** `seed_channel_bootstrap_job` */
  function Seed(jobs: Jobs, key: string, oldest: Option<Time>, latest: Option<Time>, lookback: int): Jobs {
    if oldest.None? || latest.None? || key in jobs then jobs
    else jobs[key := Job(Bootstrap, Pending, Payload(None, oldest, latest, lookback, "", false), 0, None)]
  }

  predicate Widenable(job: Job, lookback: int) {
    && job.jobType.Bootstrap? && job.payload.lookback < lookback
    && job.payload.oldest.Some? && job.payload.cursor.None? && !job.status.Running?
  }

  /** `widen_channel_bootstrap_job`: a completed job only fetches what lies below its old window. */
  function Widen(jobs: Jobs, key: string, oldest: Option<Time>, lookback: int): Jobs {
    if oldest.None? || key !in jobs || !Widenable(jobs[key], lookback) then jobs
    else
      var job := jobs[key];
      var latest := if job.status.Completed? then job.payload.oldest else job.payload.latest;
      jobs[key := Job(Bootstrap, Pending, Payload(None, oldest, latest, lookback, "", false), 0, None)]
  }

  /** A pending or failed job, or one stuck in `running` past the stale interval. */
  predicate Claimable(job: Job, now: Time) {
    job.status.Pending? || job.status.Failed?
    || (job.status.Running? && job.lastStarted.Some? && job.lastStarted.value < now - STALE)
  }

  function Started(job: Job, now: Time): Job {
    job.(status := Running, attempts := job.attempts + 1, lastStarted := Some(now))
  }

  /** `claim_backfill_jobs` for the chosen rows. */
  function Claim(jobs: Jobs, keys: set<string>, now: Time): (result: Jobs)
    ensures result.Keys == jobs.Keys
    ensures forall k :: k in jobs && k !in keys ==> result[k] == jobs[k]
    ensures forall k :: k in jobs && k in keys ==>
      && result[k].status.Running? && result[k].attempts == jobs[k].attempts + 1 && result[k].lastStarted == Some(now)
      && result[k].payload == jobs[k].payload && result[k].jobType == jobs[k].jobType
  {
    map k | k in jobs :: if k in keys then Started(jobs[k], now) else jobs[k]
  }

  /** `touch_backfill_job_started` */
  function Touch(jobs: Jobs, key: string, now: Time): Jobs {
    if key in jobs && jobs[key].status.Running?
    then jobs[key := jobs[key].(lastStarted := Some(now))] else jobs
  }

  /** `mark_backfill_job_failed` */
  function MarkFailed(jobs: Jobs, key: string): Jobs {
    if key in jobs then jobs[key := jobs[key].(status := Failed)] else jobs
  }

  /** `mark_backfill_job_terminal_skipped` */
  function MarkSkipped(jobs: Jobs, key: string): Jobs {
    if key in jobs
    then jobs[key := jobs[key].(status := Completed, payload := jobs[key].payload.(skipped := true))] else jobs
  }

  /** `mark_backfill_job_completed` */
  function MarkCompleted(jobs: Jobs, key: string, payload: Option<Payload>): Jobs {
    if key in jobs
    then jobs[key := jobs[key].(status := Completed,
                                payload := if payload.Some? then payload.value else jobs[key].payload)]
    else jobs
  }

  // ---- The statements, column by column ----------------------------------------------------------------

  /** The guard of an enqueue, by the job's status. */
  lemma RefreshGuard(refreshCompleted: bool)
    ensures MayRefresh(Pending, refreshCompleted, true) && MayRefresh(Running, refreshCompleted, true)
    ensures MayRefresh(Failed, refreshCompleted, true) && (MayRefresh(Completed, refreshCompleted, true) <==> refreshCompleted)
    ensures !MayRefresh(Pending, refreshCompleted, false) && !MayRefresh(Running, refreshCompleted, false)
    ensures MayRefresh(Failed, refreshCompleted, false) && (MayRefresh(Completed, refreshCompleted, false) <==> refreshCompleted)
  {}

  /** A pending or failed job can be claimed, a completed one cannot, a running one after two hours without a stamp. */
  lemma ClaimableExactly(job: Job, now: Time)
    ensures job.status.Pending? || job.status.Failed? ==> Claimable(job, now)
    ensures job.status.Completed? ==> !Claimable(job, now)
    ensures job.status.Running? ==> (Claimable(job, now) <==> job.lastStarted.Some? && job.lastStarted.value + 7200 < now)
  {}

  /** Seeding records the requested window once; an existing job is left alone, a missing bound seeds nothing. */
  lemma SeedExactly(jobs: Jobs, key: string, oldest: Option<Time>, latest: Option<Time>, lookback: int)
    ensures key in jobs || oldest.None? || latest.None? ==> Seed(jobs, key, oldest, latest, lookback) == jobs
    ensures key !in jobs && oldest.Some? && latest.Some? ==>
      var result := Seed(jobs, key, oldest, latest, lookback);
      && result.Keys == jobs.Keys + {key} && (forall k :: k in jobs ==> result[k] == jobs[k])
      && result[key].jobType.Bootstrap? && result[key].status.Pending? && result[key].attempts == 0
      && result[key].payload.oldest == oldest && result[key].payload.latest == latest
      && result[key].payload.cursor.None? && result[key].payload.lookback == lookback && !result[key].payload.skipped
  {}

  /** A bootstrap job that is not running, has no cursor and a shorter lookback can be widened. */
  predicate CanWiden(job: Job, lookback: int) {
    && job.jobType.Bootstrap? && (job.status.Pending? || job.status.Failed? || job.status.Completed?)
    && job.payload.cursor.None? && job.payload.oldest.Some? && job.payload.lookback < lookback
  }

  /** Widening reopens the job down to the requested bound; a completed one only from its old oldest bound down. */
  lemma WidenExactly(jobs: Jobs, key: string, oldest: Option<Time>, lookback: int)
    ensures oldest.None? || key !in jobs || !CanWiden(jobs[key], lookback) ==> Widen(jobs, key, oldest, lookback) == jobs
    ensures oldest.Some? && key in jobs && CanWiden(jobs[key], lookback) ==>
      var result := Widen(jobs, key, oldest, lookback);
      && result.Keys == jobs.Keys && (forall k :: k in jobs && k != key ==> result[k] == jobs[k])
      && result[key].jobType.Bootstrap? && result[key].status.Pending? && result[key].attempts == 0
      && result[key].lastStarted.None?
      && result[key].payload.oldest == oldest && result[key].payload.cursor.None?
      && result[key].payload.lookback == lookback && !result[key].payload.skipped
      && (jobs[key].status.Completed? ==> result[key].payload.latest == jobs[key].payload.oldest)
      && (!jobs[key].status.Completed? ==> result[key].payload.latest == jobs[key].payload.latest)
  {}

  /** What a worker's closing statements leave of its job. */
  lemma MarksExactly(jobs: Jobs, key: string, payload: Option<Payload>, now: Time)
    requires key in jobs
    ensures MarkFailed(jobs, key)[key].status.Failed? && MarkFailed(jobs, key)[key].payload == jobs[key].payload
    ensures MarkSkipped(jobs, key)[key].status.Completed? && MarkSkipped(jobs, key)[key].payload.skipped
    ensures MarkSkipped(jobs, key)[key].payload.oldest == jobs[key].payload.oldest
    ensures MarkCompleted(jobs, key, payload)[key].status.Completed?
    ensures MarkCompleted(jobs, key, payload)[key].payload == if payload.Some? then payload.value else jobs[key].payload
    ensures Touch(jobs, key, now)[key].lastStarted == if jobs[key].status.Running? then Some(now) else jobs[key].lastStarted
  {}
}
