/**
 * Ownership of backfill jobs (workflows/slack/shared.py, workflows/slack/backfill.py): which interleavings of
 * enqueuers, widening, seeding and workers keep a running job in one worker's hands.
 */
module SlackOwnership {
  import opened Common
  import opened SlackJobs
  import opened Runs

  datatype Holding = Holding(run: nat, key: string)

  /** What the run claimed, and when it last stamped the row. */
  datatype Held = Held(payload: Payload, stamp: Time)

  datatype State = State(now: Time, jobs: Jobs, held: map<Holding, Held>)

  /** Everything that can happen. `Write*` are the statements by which a worker gives a job back. */
  datatype Step =
    | Tick(to: Time)
    | Enqueuer(key: string, jobType: JobType, payload: Option<Payload>, refreshCompleted: bool)
    | Seeder(key: string, oldest: Option<Time>, latest: Option<Time>, lookback: int)
    | Widener(key: string, oldest: Option<Time>, lookback: int)
    | ClaimBatch(run: nat, keys: set<string>)
    | Restamp(run: nat, key: string)
    | WriteRequeue(run: nat, key: string, resume: Payload)
    | WriteCompleted(run: nat, key: string, payload: Option<Payload>)
    | WriteFailed(run: nat, key: string)
    | WriteSkipped(run: nat, key: string)
    | Die(run: nat)

  function Release(s: State, run: nat, key: string, jobs: Jobs): State {
    s.(jobs := jobs, held := s.held - {Holding(run, key)})
  }

  /** `patience` bounds the gap between a live worker's stamps on a job it holds (claim, touch, write). */
  predicate Enabled(patience: nat, s: State, step: Step) {
    match step
    case Tick(to) => s.now <= to && forall h :: h in s.held ==> to <= s.held[h].stamp + patience
    case ClaimBatch(run, keys) => forall k :: k in keys ==> k in s.jobs && Claimable(s.jobs[k], s.now)
    case Restamp(run, key) => Holding(run, key) in s.held
    case WriteRequeue(run, key, _) => Holding(run, key) in s.held && key in s.jobs
    case WriteCompleted(run, key, _) => Holding(run, key) in s.held
    case WriteFailed(run, key) => Holding(run, key) in s.held
    case WriteSkipped(run, key) => Holding(run, key) in s.held
    case _ => true
  }

  function Apply(patience: nat, s: State, step: Step): State
    requires Enabled(patience, s, step)
  {
    match step
    case Tick(to) => s.(now := to)
    case Enqueuer(key, jobType, payload, refreshCompleted) =>
      s.(jobs := Enqueue(s.jobs, key, jobType, payload, refreshCompleted, false))
    case Seeder(key, oldest, latest, lookback) => s.(jobs := Seed(s.jobs, key, oldest, latest, lookback))
    case Widener(key, oldest, lookback) => s.(jobs := Widen(s.jobs, key, oldest, lookback))
    case ClaimBatch(run, keys) =>
      s.(jobs := Claim(s.jobs, keys, s.now),
         held := s.held + map h | h in (set k | k in keys :: Holding(run, k)) :: Held(s.jobs[h.key].payload, s.now))
    case Restamp(run, key) =>
      s.(jobs := Touch(s.jobs, key, s.now),
         held := s.held[Holding(run, key) := s.held[Holding(run, key)].(stamp := s.now)])
    case WriteRequeue(run, key, payload) =>
      Release(s, run, key, Enqueue(s.jobs, key, s.jobs[key].jobType, Some(payload), true, true))
    case WriteCompleted(run, key, payload) => Release(s, run, key, MarkCompleted(s.jobs, key, payload))
    case WriteFailed(run, key) => Release(s, run, key, MarkFailed(s.jobs, key))
    case WriteSkipped(run, key) => Release(s, run, key, MarkSkipped(s.jobs, key))
    case Die(run) => s.(held := map h | h in s.held && h.run != run :: s.held[h])
  }

  /** The machine whose runs are all interleavings. */
  function Machine(patience: nat): (State, Step) -> Option<State> {
    (s, step) => if Enabled(patience, s, step) then Some(Apply(patience, s, step)) else None
  }

  /** No job is held by two runs. */
  ghost predicate Exclusive(s: State) {
    forall h, g :: h in s.held && g in s.held && h.key == g.key ==> h == g
  }

  /** A held job is running, carries its holder's stamp and still has the payload its holder claimed. */
  predicate Intact(s: State, h: Holding)
    requires h in s.held
  {
    && h.key in s.jobs && s.jobs[h.key].status.Running?
    && s.jobs[h.key].payload == s.held[h].payload
    && s.jobs[h.key].lastStarted == Some(s.held[h].stamp)
  }

  ghost predicate Owned(s: State) {
    Exclusive(s) && forall h :: h in s.held ==> Intact(s, h)
  }

  ghost predicate Timely(s: State) {
    forall h :: h in s.held ==> s.held[h].stamp <= s.now <= s.held[h].stamp + STALE
  }

  /** Statements that leave every held row alone keep ownership. */
  lemma OthersKeep(s: State, s2: State)
    requires Owned(s) && Timely(s) && s2.now == s.now
    requires forall h :: h in s2.held ==> h in s.held && s2.held[h] == s.held[h]
    requires forall h :: h in s2.held ==> h.key in s2.jobs && h.key in s.jobs && s2.jobs[h.key] == s.jobs[h.key]
    ensures Owned(s2) && Timely(s2)
  {
    forall h | h in s2.held ensures Intact(s2, h) {
      assert Intact(s, h);
    }
  }

  lemma ClaimKeeps(patience: nat, s: State, run: nat, keys: set<string>)
    requires Owned(s) && Timely(s) && Enabled(patience, s, ClaimBatch(run, keys))
    ensures Owned(Apply(patience, s, ClaimBatch(run, keys))) && Timely(Apply(patience, s, ClaimBatch(run, keys)))
  {
    var s2 := Apply(patience, s, ClaimBatch(run, keys));
    forall h | h in s.held ensures h.key !in keys {
      assert Intact(s, h);
    }
    forall h | h in s2.held
      ensures Intact(s2, h) && s2.held[h].stamp <= s2.now <= s2.held[h].stamp + STALE
    {
      if h.key !in keys {
        assert h in s.held && Intact(s, h);
      }
    }
  }

  lemma TickKeeps(patience: nat, s: State, to: Time)
    requires patience <= STALE && Owned(s) && Timely(s) && Enabled(patience, s, Tick(to))
    ensures Owned(Apply(patience, s, Tick(to))) && Timely(Apply(patience, s, Tick(to)))
  {
    var s2 := Apply(patience, s, Tick(to));
    forall h | h in s2.held ensures Intact(s2, h) {
      assert Intact(s, h);
    }
  }

  lemma RestampKeeps(patience: nat, s: State, run: nat, key: string)
    requires Owned(s) && Timely(s) && Enabled(patience, s, Restamp(run, key))
    ensures Owned(Apply(patience, s, Restamp(run, key))) && Timely(Apply(patience, s, Restamp(run, key)))
  {
    var s2 := Apply(patience, s, Restamp(run, key));
    forall h | h in s2.held ensures Intact(s2, h) {
      assert Intact(s, h);
    }
  }

  /** Enqueuers, seeding, widening and deaths leave every job that stays held alone. */
  lemma BystanderKeeps(patience: nat, s: State, step: Step)
    requires Owned(s) && Timely(s) && Enabled(patience, s, step)
    requires step.Enqueuer? || step.Seeder? || step.Widener? || step.Die?
    ensures Owned(Apply(patience, s, step)) && Timely(Apply(patience, s, step))
  {
    assert forall h :: h in s.held ==> Intact(s, h);
    OthersKeep(s, Apply(patience, s, step));
  }

  /** A worker that gives its job back touches no other held job. */
  lemma WriteKeeps(patience: nat, s: State, step: Step)
    requires Owned(s) && Timely(s) && Enabled(patience, s, step)
    requires step.WriteRequeue? || step.WriteCompleted? || step.WriteFailed? || step.WriteSkipped?
    ensures Owned(Apply(patience, s, step)) && Timely(Apply(patience, s, step))
  {
    assert forall h :: h in s.held ==> Intact(s, h);
    OthersKeep(s, Apply(patience, s, step));
  }

  lemma StepKeeps(patience: nat, s: State, step: Step)
    requires patience <= STALE && Owned(s) && Timely(s) && Enabled(patience, s, step)
    ensures Owned(Apply(patience, s, step)) && Timely(Apply(patience, s, step))
  {
    match step
    case Tick(to) => TickKeeps(patience, s, to);
    case ClaimBatch(run, keys) => ClaimKeeps(patience, s, run, keys);
    case Restamp(run, key) => RestampKeeps(patience, s, run, key);
    case Enqueuer(_, _, _, _) => BystanderKeeps(patience, s, step);
    case Seeder(_, _, _, _) => BystanderKeeps(patience, s, step);
    case Widener(_, _, _) => BystanderKeeps(patience, s, step);
    case Die(_) => BystanderKeeps(patience, s, step);
    case WriteRequeue(_, _, _) => WriteKeeps(patience, s, step);
    case WriteCompleted(_, _, _) => WriteKeeps(patience, s, step);
    case WriteFailed(_, _) => WriteKeeps(patience, s, step);
    case WriteSkipped(_, _) => WriteKeeps(patience, s, step);
  }

  lemma RunKeeps(patience: nat, s: State, steps: seq<Step>)
    requires patience <= STALE && Owned(s) && Timely(s) && Run(Machine(patience), s, steps).Some?
    ensures Owned(Run(Machine(patience), s, steps).value) && Timely(Run(Machine(patience), s, steps).value)
  {
    var inv := (s: State) => Owned(s) && Timely(s);
    forall s, step | inv(s) && Enabled(patience, s, step) ensures inv(Apply(patience, s, step)) {
      StepKeeps(patience, s, step);
    }
    Runs.RunKeeps(Machine(patience), inv, s, steps);
  }

  predicate Empty(s: State) { s.jobs == map[] && s.held == map[] }

  ghost predicate Reachable(patience: nat, s: State) { Runs.Reachable(Machine(patience), Empty, s) }

  /**
   * Over every interleaving, no job has two holders and every running job keeps the payload its holder
   * claimed, exactly when live workers re-stamp within the stale interval.
   */
  lemma OwnershipExactly(patience: nat)
    ensures (forall s :: Reachable(patience, s) ==> Owned(s)) <==> patience <= STALE
  {
    if patience <= STALE {
      forall s | Reachable(patience, s) ensures Owned(s) {
        var s0: State, steps: seq<Step> :| Empty(s0) && Run(Machine(patience), s0, steps) == Some(s);
        RunKeeps(patience, s0, steps);
      }
    } else {
      var s := DoubleClaim(patience);
      assert !Exclusive(s);
    }
  }

  /** A slow but live worker is overtaken: its job is reclaimed while it still holds it. */
  lemma DoubleClaim(patience: nat) returns (s: State)
    requires patience > STALE
    ensures Reachable(patience, s) && !Exclusive(s)
  {
    var k := "k";
    s := FirstClaim(patience, k);
    s := Extend(Machine(patience), Empty, s, Tick(STALE + 1));
    s := Extend(Machine(patience), Empty, s, ClaimBatch(2, {k}));
    assert Holding(1, k) in s.held && Holding(2, k) in s.held;
  }

  lemma FirstClaim(patience: nat, k: string) returns (s: State)
    ensures Reachable(patience, s) && s.now == 0 && s.held.Keys == {Holding(1, k)} && s.held[Holding(1, k)].stamp == 0
    ensures k in s.jobs && s.jobs[k].status.Running? && s.jobs[k].lastStarted == Some(0)
  {
    s := State(0, map[], map[]);
    Begin(Machine(patience), Empty, s);
    s := Extend(Machine(patience), Empty, s, Enqueuer(k, ThreadRefresh, Some(Payload(None, None, None, 0, "", false)), true));
    assert s.jobs.Keys == {k} && s.held == map[];
    s := Extend(Machine(patience), Empty, s, ClaimBatch(1, {k}));
  }
}
