/**
 * The incremental Slack tick of one channel (workflows/slack/sync.py, `_max_slack_ts` and the per-channel
 * part of `handler`): load the checkpoint, read a history page and perhaps the live head, enqueue the
 * continuation, commit the checkpoint. Backfill workers act on the job table at the same time.
 */
module SlackTick {
  import opened Common
  import opened SlackJobs
  import opened Runs

  // ---- _max_slack_ts -----------------------------------------------------------------------------

  /** A Slack timestamp as stored: absent or empty, unparsable, or a number with its text. */
  datatype Stamp = Missing | Garbled | Ts(micros: int, text: string)

  /** `_max_slack_ts`: the first of the numerically greatest values, ignoring empty and invalid ones. */
  method MaxSlackTs(values: seq<Stamp>) returns (best: Option<Stamp>)
    ensures best.None? <==> forall v :: v in values ==> !v.Ts?
    ensures best.Some? ==> best.value.Ts? && best.value in values
    ensures best.Some? ==> forall v :: v in values && v.Ts? ==> v.micros <= best.value.micros
    ensures best.Some? ==> exists i :: 0 <= i < |values| && values[i] == best.value
                             && forall j :: 0 <= j < i && values[j].Ts? ==> values[j].micros < best.value.micros
  {
    best := None;
    for n := 0 to |values|
      invariant best.None? <==> forall v :: v in values[..n] ==> !v.Ts?
      invariant best.Some? ==> best.value.Ts?
      invariant best.Some? ==> forall v :: v in values[..n] && v.Ts? ==> v.micros <= best.value.micros
      invariant best.Some? ==> exists i :: 0 <= i < n && values[i] == best.value
                                 && forall j :: 0 <= j < i && values[j].Ts? ==> values[j].micros < best.value.micros
    {
      var v := values[n];
      assert values[..n + 1] == values[..n] + [v];
      if v.Ts? && (best.None? || v.micros > best.value.micros) {
        assert forall j :: 0 <= j < n && values[j].Ts? ==> values[j] in values[..n];
        best := Some(v);
      }
    }
    assert values[..|values|] == values;
  }

  // ---- The tick protocol --------------------------------------------------------------------------

  function MaxOf(a: Option<Time>, b: Option<Time>): Option<Time> {
    if a.None? then b else if b.None? then a else Some(Max(a.value, b.value))
  }

  predicate AtMost(a: Option<Time>, b: Option<Time>) {
    a.None? || (b.Some? && a.value <= b.value)
  }

  /** The watermark `_sync_etl_channel_history` returns for a page: never below the one passed in. */
  function PageWatermark(messages: seq<Time>, watermark: Option<Time>): (r: Option<Time>)
    ensures AtMost(watermark, r)
    ensures forall m :: m in messages ==> AtMost(Some(m), r)
    ensures r == watermark || (r.Some? && r.value in messages)
  {
    if messages == [] then watermark
    else
      var rest := PageWatermark(messages[1..], watermark);
      assert messages == [messages[0]] + messages[1..];
      MaxOf(Some(messages[0]), rest)
  }

  /** What a tick read: its page's watermark, the continuation it needs, and the head it saw if it probed. */
  datatype Reading = Reading(page: Option<Time>, head: Option<Time>, rest: Option<Payload>, key: string)

  /** `ended`: the last statement to touch the continuation job since this tick enqueued it has ended the job. */
  datatype Tick =
    | Loaded(watermark: Option<Time>)
    | Read(watermark: Option<Time>, reading: Reading)
    | Enqueued(watermark: Option<Time>, reading: Reading, ended: bool)

  datatype State = State(checkpoint: Option<Time>, jobs: Jobs, ticks: map<nat, Tick>)

  datatype Outcome = Requeued(payload: Payload) | Finished(result: Option<Payload>) | GaveUp | Skipped

  datatype Step =
    | LoadCheckpoint(t: nat)
    | ReadHistory(t: nat, messages: seq<Time>, head: Option<seq<Time>>, rest: Option<Payload>, key: string)
    | EnqueueContinuation(t: nat)
    | Commit(t: nat)
    | Abort(t: nat)
    | OtherEnqueue(key: string, jobType: JobType, payload: Option<Payload>, refreshCompleted: bool)
    | WidenOther(key: string, oldest: Option<Time>, lookback: int)
    | WorkerClaims(key: string, now: Time)
    | WorkerWrites(key: string, outcome: Outcome)

  /**
   * `sequential`: a tick starts only when no other tick of the channel is in flight. `undisturbed`: no worker
   * ends a continuation job between a tick's enqueue and that tick's commit.
   */
  datatype Config = Config(sequential: bool, undisturbed: bool)

  /** The watermark the tick commits. */
  function Committed(watermark: Option<Time>, r: Reading): Option<Time> {
    MaxOf(r.page, MaxOf(r.head, watermark))
  }

  /** The tick has enqueued this continuation and not committed yet. */
  predicate Awaits(tick: Tick, key: string) {
    tick.Enqueued? && tick.reading.rest.Some? && tick.reading.key == key
  }

  predicate Enabled(cfg: Config, s: State, step: Step) {
    match step
    case LoadCheckpoint(t) => t !in s.ticks && (cfg.sequential ==> s.ticks == map[])
    case ReadHistory(t, _, _, _, _) => t in s.ticks && s.ticks[t].Loaded?
    case EnqueueContinuation(t) => t in s.ticks && s.ticks[t].Read?
    case Commit(t) => t in s.ticks && s.ticks[t].Enqueued?
    case Abort(t) => t in s.ticks
    case WorkerClaims(key, now) => key in s.jobs && Claimable(s.jobs[key], now)
    case WorkerWrites(key, outcome) =>
      && key in s.jobs
      && (cfg.undisturbed && !outcome.Requeued? ==> forall t :: t in s.ticks ==> !Awaits(s.ticks[t], key))
    case WidenOther(_, _, _) => true
    case OtherEnqueue(_, _, _, _) => true
  }

  function WorkerResult(jobs: Jobs, key: string, outcome: Outcome): Jobs
    requires key in jobs
  {
    match outcome
    case Requeued(p) => Enqueue(jobs, key, jobs[key].jobType, Some(p), true, true)
    case Finished(p) => MarkCompleted(jobs, key, p)
    case GaveUp => MarkFailed(jobs, key)
    case Skipped => MarkSkipped(jobs, key)
  }

  /** A requeue stores the worker's resume point and opens the job again, whatever its status. */
  lemma RequeueStores(jobs: Jobs, key: string, p: Payload)
    requires key in jobs
    ensures
      var result := WorkerResult(jobs, key, Requeued(p));
      key in result && result[key].status.Pending? && result[key].payload == p && result[key].jobType == jobs[key].jobType
  {}

  /** Ticks waiting on the job learn whether it was ended or opened again. */
  function Mark(ticks: map<nat, Tick>, key: string, ended: bool): map<nat, Tick> {
    map t | t in ticks :: if Awaits(ticks[t], key) then ticks[t].(ended := ended) else ticks[t]
  }

  /** The conflict update of an enqueue without `refresh_pending` fires. */
  predicate Reopens(jobs: Jobs, key: string, payload: Option<Payload>, refreshCompleted: bool) {
    payload.Some? && key in jobs && MayRefresh(jobs[key].status, refreshCompleted, false)
  }

  function Apply(cfg: Config, s: State, step: Step): State
    requires Enabled(cfg, s, step)
  {
    match step
    case LoadCheckpoint(t) => s.(ticks := s.ticks[t := Loaded(s.checkpoint)])
    case ReadHistory(t, messages, head, rest, key) =>
      var w := s.ticks[t].watermark;
      var r := Reading(PageWatermark(messages, w), if head.Some? then PageWatermark(head.value, None) else None, rest, key);
      s.(ticks := s.ticks[t := Read(w, r)])
    case EnqueueContinuation(t) =>
      var tick := s.ticks[t];
      var r := tick.reading;
      var others := if Reopens(s.jobs, r.key, r.rest, true) then Mark(s.ticks, r.key, false) else s.ticks;
      s.(jobs := Enqueue(s.jobs, r.key, Continuation, r.rest, true, false),
         ticks := others[t := Enqueued(tick.watermark, r, false)])
    case Commit(t) =>
      s.(checkpoint := Committed(s.ticks[t].watermark, s.ticks[t].reading), ticks := s.ticks - {t})
    case Abort(t) => s.(ticks := s.ticks - {t})
    case OtherEnqueue(key, jobType, payload, refreshCompleted) =>
      s.(jobs := Enqueue(s.jobs, key, jobType, payload, refreshCompleted, false),
         ticks := if Reopens(s.jobs, key, payload, refreshCompleted) then Mark(s.ticks, key, false) else s.ticks)
    case WidenOther(key, oldest, lookback) =>
      var fires := oldest.Some? && key in s.jobs && Widenable(s.jobs[key], lookback);
      s.(jobs := Widen(s.jobs, key, oldest, lookback), ticks := if fires then Mark(s.ticks, key, false) else s.ticks)
    case WorkerClaims(key, now) => s.(jobs := Claim(s.jobs, {key}, now), ticks := Mark(s.ticks, key, false))
    case WorkerWrites(key, outcome) =>
      s.(jobs := WorkerResult(s.jobs, key, outcome), ticks := Mark(s.ticks, key, !outcome.Requeued?))
  }

  /** The machine whose runs are all interleavings. */
  function Machine(cfg: Config): (State, Step) -> Option<State> {
    (s, step) => if Enabled(cfg, s, step) then Some(Apply(cfg, s, step)) else None
  }

  predicate InFlight(jobs: Jobs, key: string) {
    key in jobs && (jobs[key].status.Pending? || jobs[key].status.Running?)
  }

  // ---- What every run keeps ----------------------------------------------------------------------------

  /** A tick's continuation is in flight exactly while nothing has ended it. */
  predicate Tracked(s: State, tick: Tick) {
    tick.Enqueued? && tick.reading.rest.Some? ==>
      tick.reading.key in s.jobs && (InFlight(s.jobs, tick.reading.key) <==> !tick.ended)
  }

  ghost predicate ContinuationInv(cfg: Config, s: State) {
    && (forall t :: t in s.ticks ==> Tracked(s, s.ticks[t]))
    && (cfg.undisturbed ==> forall t :: t in s.ticks && s.ticks[t].Enqueued? ==> !s.ticks[t].ended)
  }

  ghost predicate SequentialInv(s: State) {
    && (forall t, u :: t in s.ticks && u in s.ticks ==> t == u)
    && (forall t :: t in s.ticks ==> s.ticks[t].watermark == s.checkpoint)
  }

  ghost predicate Inv(cfg: Config, s: State) {
    ContinuationInv(cfg, s) && (cfg.sequential ==> SequentialInv(s))
  }

  /** A statement on one job that leaves it in flight, or not, as the ticks waiting on it are told. */
  lemma JobStep(cfg: Config, s: State, s2: State, key: string, ended: bool)
    requires ContinuationInv(cfg, s) && s2.ticks == Mark(s.ticks, key, ended)
    requires forall k :: k != key && k in s.jobs ==> k in s2.jobs && s2.jobs[k] == s.jobs[k]
    requires key in s2.jobs && (InFlight(s2.jobs, key) <==> !ended)
    requires cfg.undisturbed && ended ==> forall t :: t in s.ticks ==> !Awaits(s.ticks[t], key)
    ensures ContinuationInv(cfg, s2)
  {
    forall t | t in s2.ticks
      ensures Tracked(s2, s2.ticks[t]) && (cfg.undisturbed && s2.ticks[t].Enqueued? ==> !s2.ticks[t].ended)
    {
      assert Tracked(s, s.ticks[t]);
    }
  }

  /** A statement that leaves the job's status alone. */
  lemma QuietStep(cfg: Config, s: State, s2: State)
    requires ContinuationInv(cfg, s) && s2.ticks == s.ticks
    requires forall k :: k in s.jobs ==> k in s2.jobs && s2.jobs[k].status == s.jobs[k].status
    ensures ContinuationInv(cfg, s2)
  {
    forall t | t in s2.ticks ensures Tracked(s2, s2.ticks[t]) {
      assert Tracked(s, s.ticks[t]);
    }
  }

  lemma EnqueueStep(cfg: Config, s: State, t: nat)
    requires ContinuationInv(cfg, s) && Enabled(cfg, s, EnqueueContinuation(t))
    ensures ContinuationInv(cfg, Apply(cfg, s, EnqueueContinuation(t)))
  {
    var s2 := Apply(cfg, s, EnqueueContinuation(t));
    var r := s.ticks[t].reading;
    var rest := s2.(ticks := if Reopens(s.jobs, r.key, r.rest, true) then Mark(s.ticks, r.key, false) else s.ticks);
    if Reopens(s.jobs, r.key, r.rest, true) {
      JobStep(cfg, s, rest, r.key, false);
    } else {
      QuietStep(cfg, s, rest);
    }
    forall u | u in s2.ticks ensures Tracked(s2, s2.ticks[u]) {
      assert u != t ==> Tracked(rest, rest.ticks[u]);
    }
  }

  lemma OtherEnqueueStep(cfg: Config, s: State, key: string, jobType: JobType, payload: Option<Payload>, refreshCompleted: bool)
    requires ContinuationInv(cfg, s)
    ensures ContinuationInv(cfg, Apply(cfg, s, OtherEnqueue(key, jobType, payload, refreshCompleted)))
  {
    var s2 := Apply(cfg, s, OtherEnqueue(key, jobType, payload, refreshCompleted));
    if Reopens(s.jobs, key, payload, refreshCompleted) {
      JobStep(cfg, s, s2, key, false);
    } else {
      QuietStep(cfg, s, s2);
    }
  }

  lemma WidenStep(cfg: Config, s: State, key: string, oldest: Option<Time>, lookback: int)
    requires ContinuationInv(cfg, s)
    ensures ContinuationInv(cfg, Apply(cfg, s, WidenOther(key, oldest, lookback)))
  {
    var s2 := Apply(cfg, s, WidenOther(key, oldest, lookback));
    if oldest.Some? && key in s.jobs && Widenable(s.jobs[key], lookback) {
      JobStep(cfg, s, s2, key, false);
    } else {
      QuietStep(cfg, s, s2);
    }
  }

  lemma StepContinuation(cfg: Config, s: State, step: Step)
    requires ContinuationInv(cfg, s) && Enabled(cfg, s, step)
    ensures ContinuationInv(cfg, Apply(cfg, s, step))
  {
    match step
    case EnqueueContinuation(t) => EnqueueStep(cfg, s, t);
    case OtherEnqueue(key, jobType, payload, again) => OtherEnqueueStep(cfg, s, key, jobType, payload, again);
    case WidenOther(key, oldest, lookback) => WidenStep(cfg, s, key, oldest, lookback);
    case WorkerClaims(key, now) => JobStep(cfg, s, Apply(cfg, s, step), key, false);
    case WorkerWrites(key, outcome) => JobStep(cfg, s, Apply(cfg, s, step), key, !outcome.Requeued?);
    case LoadCheckpoint(_) => TickStep(cfg, s, step);
    case ReadHistory(_, _, _, _, _) => TickStep(cfg, s, step);
    case Commit(_) => TickStep(cfg, s, step);
    case Abort(_) => TickStep(cfg, s, step);
  }

  /** Steps that only move a tick. */
  lemma TickStep(cfg: Config, s: State, step: Step)
    requires ContinuationInv(cfg, s) && Enabled(cfg, s, step)
    requires step.LoadCheckpoint? || step.ReadHistory? || step.Commit? || step.Abort?
    ensures ContinuationInv(cfg, Apply(cfg, s, step))
  {
    var s2 := Apply(cfg, s, step);
    forall t | t in s2.ticks && s2.ticks[t].Enqueued? ensures Tracked(s2, s2.ticks[t]) {
      assert Tracked(s, s.ticks[t]);
    }
  }

  lemma StepSequential(cfg: Config, s: State, step: Step)
    requires cfg.sequential && SequentialInv(s) && Enabled(cfg, s, step)
    ensures SequentialInv(Apply(cfg, s, step))
    ensures AtMost(s.checkpoint, Apply(cfg, s, step).checkpoint)
  {}

  /** Runs start between ticks, from any checkpoint and any job table. */
  predicate Between(s: State) { s.ticks == map[] }

  ghost predicate Reachable(cfg: Config, s: State) { Runs.Reachable(Machine(cfg), Between, s) }

  lemma ReachableInv(cfg: Config, s: State)
    requires Reachable(cfg, s)
    ensures Inv(cfg, s)
  {
    var inv := (s: State) => Inv(cfg, s);
    forall s, step | inv(s) && Enabled(cfg, s, step) ensures inv(Apply(cfg, s, step)) {
      StepContinuation(cfg, s, step);
      if cfg.sequential {
        StepSequential(cfg, s, step);
      }
    }
    ReachableKeeps(Machine(cfg), Between, inv, s);
  }

  // ---- The continuation of a committing tick -----------------------------------------------------------

  /** A tick with a cursor left that is about to commit. */
  predicate Committing(cfg: Config, s: State, t: nat) {
    Enabled(cfg, s, Commit(t)) && s.ticks[t].reading.rest.Some?
  }

  /**
   * Whatever its earlier status, the continuation job of a tick with a remaining cursor is pending or running
   * when the tick commits, unless a worker ended it after the tick's enqueue and nothing opened it again.
   */
  lemma CommitFindsContinuation(cfg: Config, s: State, t: nat)
    requires Reachable(cfg, s) && Committing(cfg, s, t)
    ensures s.ticks[t].reading.key in s.jobs
    ensures InFlight(s.jobs, s.ticks[t].reading.key) <==> !s.ticks[t].ended
  {
    ReachableInv(cfg, s);
    assert Tracked(s, s.ticks[t]);
  }

  ghost predicate AlwaysInFlight(cfg: Config) {
    forall s, t :: Reachable(cfg, s) && Committing(cfg, s, t) ==> InFlight(s.jobs, s.ticks[t].reading.key)
  }

  /**
   * Over all runs, overlapping ticks and crashes included, a committing tick's continuation is pending or
   * running exactly when no worker may end it between the enqueue and the commit.
   */
  lemma InFlightExactly(cfg: Config)
    ensures AlwaysInFlight(cfg) <==> cfg.undisturbed
  {
    if cfg.undisturbed {
      forall s, t | Reachable(cfg, s) && Committing(cfg, s, t) ensures InFlight(s.jobs, s.ticks[t].reading.key) {
        ReachableInv(cfg, s);
        CommitFindsContinuation(cfg, s, t);
      }
    } else {
      var s := EndedBetween(cfg);
      assert Committing(cfg, s, 0) && !InFlight(s.jobs, s.ticks[0].reading.key);
    }
  }

  /** A worker claims the fresh continuation and finishes it before the tick that enqueued it commits. */
  lemma EndedBetween(cfg: Config) returns (s: State)
    requires !cfg.undisturbed
    ensures Reachable(cfg, s) && Committing(cfg, s, 0) && !InFlight(s.jobs, s.ticks[0].reading.key)
  {
    s := FreshContinuation(cfg);
    s := Extend(Machine(cfg), Between, s, WorkerClaims("k", 0));
    s := Extend(Machine(cfg), Between, s, WorkerWrites("k", Finished(None)));
  }

  lemma FreshContinuation(cfg: Config) returns (s: State)
    ensures Reachable(cfg, s) && s.ticks.Keys == {0} && Awaits(s.ticks[0], "k")
    ensures s.jobs.Keys == {"k"} && s.jobs["k"].status.Pending?
  {
    var rest := Payload(Some(1), None, None, 0, "", false);
    s := State(None, map[], map[]);
    Begin(Machine(cfg), Between, s);
    s := Extend(Machine(cfg), Between, s, LoadCheckpoint(0));
    s := Extend(Machine(cfg), Between, s, ReadHistory(0, [], None, Some(rest), "k"));
    s := Extend(Machine(cfg), Between, s, EnqueueContinuation(0));
  }

  // ---- The checkpoint ------------------------------------------------------------------------------------

  ghost predicate NeverLowers(cfg: Config) {
    forall s, step :: Reachable(cfg, s) && Enabled(cfg, s, step) ==>
      AtMost(s.checkpoint, Apply(cfg, s, step).checkpoint)
  }

  /** The checkpoint never decreases, over all runs with crashes anywhere, exactly when ticks do not overlap. */
  lemma CheckpointMonotoneExactly(cfg: Config)
    ensures NeverLowers(cfg) <==> cfg.sequential
  {
    if cfg.sequential {
      forall s, step | Reachable(cfg, s) && Enabled(cfg, s, step)
        ensures AtMost(s.checkpoint, Apply(cfg, s, step).checkpoint)
      {
        ReachableInv(cfg, s);
        StepSequential(cfg, s, step);
      }
    } else {
      var s := Overtaken(cfg);
      assert Enabled(cfg, s, Commit(0)) && !AtMost(s.checkpoint, Apply(cfg, s, Commit(0)).checkpoint);
    }
  }

  /** Tick 0 reads an empty page; tick 1 overtakes it and commits 1; tick 0's commit would erase that. */
  lemma Overtaken(cfg: Config) returns (s: State)
    requires !cfg.sequential
    ensures Reachable(cfg, s) && s.checkpoint == Some(1)
    ensures 0 in s.ticks && s.ticks[0].Enqueued? && Committed(s.ticks[0].watermark, s.ticks[0].reading) == None
  {
    s := State(None, map[], map[]);
    Begin(Machine(cfg), Between, s);
    s := EmptyTick(cfg, s, 0, []);
    s := EmptyTick(cfg, s, 1, [1]);
    assert PageWatermark([1], None) == Some(1) by {
      assert [1][1..] == [];
    }
    s := Extend(Machine(cfg), Between, s, Commit(1));
  }

  /** A tick without a continuation, up to its commit. */
  lemma EmptyTick(cfg: Config, start: State, t: nat, messages: seq<Time>) returns (s: State)
    requires Reachable(cfg, start) && t !in start.ticks && !cfg.sequential
    ensures Reachable(cfg, s)
    ensures var r := Reading(PageWatermark(messages, start.checkpoint), None, None, "");
            s == start.(ticks := start.ticks[t := Enqueued(start.checkpoint, r, false)])
  {
    s := Extend(Machine(cfg), Between, start, LoadCheckpoint(t));
    s := Extend(Machine(cfg), Between, s, ReadHistory(t, messages, None, None, ""));
    s := Extend(Machine(cfg), Between, s, EnqueueContinuation(t));
  }

  // ---- The tick's own code -----------------------------------------------------------------------

  /** The most restricted machine: its runs are runs of every other. */
  const STRICT := Config(true, true)

  class Channel {
    var checkpoint: Option<Time>
    var jobs: Jobs

    ghost function View(): State
      reads this
    {
      State(checkpoint, jobs, map[])
    }

    /**
     * One uninterrupted tick on what the server answered; `head` is None when there was no probe or it
     * failed. It is a run of the protocol, and it moves the checkpoint to the greatest message it saw.
     */
    method SyncChannel(messages: seq<Time>, head: Option<seq<Time>>, rest: Option<Payload>, key: string)
      modifies this
      ensures Run(Machine(STRICT), old(View()), [LoadCheckpoint(0), ReadHistory(0, messages, head, rest, key),
                                      EnqueueContinuation(0), Commit(0)]) == Some(View())
      ensures AtMost(old(checkpoint), checkpoint)
      ensures forall m :: m in messages ==> AtMost(Some(m), checkpoint)
      ensures head.Some? ==> forall m :: m in head.value ==> AtMost(Some(m), checkpoint)
      ensures checkpoint == old(checkpoint)
              || (checkpoint.Some? && (checkpoint.value in messages || (head.Some? && checkpoint.value in head.value)))
      ensures rest.Some? ==> InFlight(jobs, key)
    {
      ghost var s0 := View();
      var watermark := checkpoint;
      var page := PageWatermark(messages, watermark);
      var headMark := if head.Some? then PageWatermark(head.value, None) else None;
      if rest.Some? {
        jobs := Enqueue(jobs, key, Continuation, rest, true, false);
      }
      checkpoint := MaxOf(page, MaxOf(headMark, watermark));

      TickIsRun(s0, messages, head, rest, key);
    }
  }

  /** What one uninterrupted tick leaves, as a run of the protocol. */
  lemma TickIsRun(s: State, messages: seq<Time>, head: Option<seq<Time>>, rest: Option<Payload>, key: string)
    requires s.ticks == map[]
    ensures
      var r := Reading(PageWatermark(messages, s.checkpoint), if head.Some? then PageWatermark(head.value, None) else None, rest, key);
      Run(Machine(STRICT), s, [LoadCheckpoint(0), ReadHistory(0, messages, head, rest, key), EnqueueContinuation(0), Commit(0)])
      == Some(State(Committed(s.checkpoint, r), Enqueue(s.jobs, key, Continuation, rest, true, false), map[]))
  {
    var first := [LoadCheckpoint(0), ReadHistory(0, messages, head, rest, key)];
    var second := [EnqueueContinuation(0), Commit(0)];
    var r := Reading(PageWatermark(messages, s.checkpoint), if head.Some? then PageWatermark(head.value, None) else None, rest, key);
    var mid := s.(ticks := map[0 := Read(s.checkpoint, r)]);
    var loaded := s.(ticks := map[0 := Loaded(s.checkpoint)]);
    TwoSteps(Machine(STRICT), s, LoadCheckpoint(0), loaded, ReadHistory(0, messages, head, rest, key));
    assert loaded.ticks[0 := Read(s.checkpoint, r)] == mid.ticks;
    EnqueueAndCommit(mid, s.checkpoint, r);
    RunConcat(Machine(STRICT), s, first, mid, second);
    assert first + second == [LoadCheckpoint(0), ReadHistory(0, messages, head, rest, key), EnqueueContinuation(0), Commit(0)];
  }

  lemma EnqueueAndCommit(s: State, watermark: Option<Time>, r: Reading)
    requires s.ticks == map[0 := Read(watermark, r)]
    ensures Run(Machine(STRICT), s, [EnqueueContinuation(0), Commit(0)])
         == Some(State(Committed(watermark, r), Enqueue(s.jobs, r.key, Continuation, r.rest, true, false), map[]))
  {
    var jobs := Enqueue(s.jobs, r.key, Continuation, r.rest, true, false);
    var mid := State(s.checkpoint, jobs, map[0 := Enqueued(watermark, r, false)]);
    assert Apply(STRICT, s, EnqueueContinuation(0)) == mid;
    TwoSteps(Machine(STRICT), s, EnqueueContinuation(0), mid, Commit(0));
  }
}
