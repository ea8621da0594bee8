/**
 * Progress of the projection watermark over claim-and-finish cycles
 * (workflows/company_context_documents.py, `_batch_until`, `_claim_scope`, `_finish_scope_window`).
 */
module ProjectionProgress {
  import opened Common
  import opened KeysetPaging
  import opened ProjectionCheckpoint
  import opened ProjectionProtocol
  import opened ProjectionTheorems
  import opened Runs

  /** One coordinator tick whose window is then drained. */
  datatype Cycle = Cycle(req: ClaimRequest, now: Time)

  function RunCycle(row: Option<Checkpoint>, c: Cycle): Option<Checkpoint> {
    match Claim(row, c.req, c.now)
    case Claimed(claimed) => Finish(Some(claimed), c.req.token)
    case _ => row
  }

  /** Between windows: no lease, no open window, watermark `mark`. */
  predicate Idle(row: Option<Checkpoint>, mark: Time) {
    row.Some? && row.value == Checkpoint(Some(mark), None, None, None, 0, None, None)
  }

  /** Any cycle a coordinator can run with these settings: its own seed never lies in the future. */
  predicate CycleOf(c: Cycle, overlap: nat, maxWindow: nat) {
    c.req.overlap == overlap && c.req.maxWindow == maxWindow && WindowCheck(Proposed(c.req, c.now))
  }

  /**
   * A cycle opens its window at `mark - overlap`, so it leaves no gap after the previous one, and ends it
   * at the clock or `maxWindow` later, whichever is first; that end becomes the watermark.
   */
  lemma CycleMark(row: Option<Checkpoint>, mark: Time, c: Cycle, overlap: nat, maxWindow: nat)
    requires Idle(row, mark) && mark <= c.now && CycleOf(c, overlap, maxWindow)
    ensures Idle(RunCycle(row, c), Min(c.now, mark - overlap + maxWindow))
    ensures Claim(row, c.req, c.now).Claimed?
    ensures var open := Claim(row, c.req, c.now).row;
            open.windowStart == Some(mark - overlap) && open.windowEnd == Some(Min(c.now, mark - overlap + maxWindow))
  {}

  /** The watermark never regresses exactly when `overlap <= maxWindow`, and advances exactly when also strict. */
  lemma ProgressExactly(row: Option<Checkpoint>, mark: Time, c: Cycle, overlap: nat, maxWindow: nat)
    requires Idle(row, mark) && mark <= c.now && CycleOf(c, overlap, maxWindow)
    ensures RunCycle(row, c).Some? && RunCycle(row, c).value.watermark.Some?
    ensures RunCycle(row, c).value.watermark.value >= mark <==> overlap <= maxWindow
    ensures RunCycle(row, c).value.watermark.value > mark <==> overlap < maxWindow && mark < c.now
  {
    CycleMark(row, mark, c, overlap, maxWindow);
  }

  // ---- Over every run of the protocol --------------------------------------------------------------------

  /** The protocol with coordinators that all use one overlap and one window length. */
  function Tuned(cfg: Config, overlap: nat, maxWindow: nat): (State, Step) -> Option<State> {
    (s, step) =>
      if Enabled(cfg, s, step) && (step.ClaimScope? ==> step.req.overlap == overlap && step.req.maxWindow == maxWindow)
      then Some(Apply(cfg, s, step)) else None
  }

  ghost predicate TunedReachable(cfg: Config, overlap: nat, maxWindow: nat, s: State) {
    Runs.Reachable(Tuned(cfg, overlap, maxWindow), Initial, s)
  }

  /** Once a window has finished there is a watermark, never ahead of the clock nor of the open window's end. */
  predicate MarkInv(s: State) {
    && (s.finished > 0 ==> s.row.Some? && s.row.value.watermark.Some? && s.row.value.watermark.value <= s.now)
    && (s.row.Some? ==>
          && (s.row.value.windowEnd.Some? <==> s.row.value.leaseToken.Some?)
          && (s.row.value.windowEnd.None? ==> s.finished > 0)
          && (s.row.value.windowEnd.Some? ==> s.row.value.windowEnd.value <= s.now)
          && (s.row.value.windowEnd.Some? && s.finished > 0 ==> s.row.value.watermark.value <= s.row.value.windowEnd.value))
  }

  /** The step does not lower the watermark. */
  predicate KeepsMark(s: State, s2: State) {
    s.finished > 0 ==>
      && s.row.Some? && s.row.value.watermark.Some? && s2.row.Some? && s2.row.value.watermark.Some?
      && s.row.value.watermark.value <= s2.row.value.watermark.value
  }

  lemma StepKeepsMark(cfg: Config, overlap: nat, maxWindow: nat, s: State, step: Step)
    requires overlap <= maxWindow && MarkInv(s) && Tuned(cfg, overlap, maxWindow)(s, step).Some?
    ensures MarkInv(Apply(cfg, s, step)) && KeepsMark(s, Apply(cfg, s, step))
  {
    if step.ClaimScope? {
      ClaimKeepsMark(s, step.req);
    } else if step.Conclude? {
      ConcludeKeepsMark(s, step.w);
    }
  }

  lemma ClaimKeepsMark(s: State, req: ClaimRequest)
    requires MarkInv(s) && req.hostNow <= s.now && req.overlap <= req.maxWindow
    ensures MarkInv(ApplyClaim(s, req)) && KeepsMark(s, ApplyClaim(s, req))
  {}

  lemma ConcludeKeepsMark(s: State, w: nat)
    requires MarkInv(s) && w in s.workers && s.workers[w].phase.Paged?
    ensures MarkInv(ApplyConclude(s, w)) && KeepsMark(s, ApplyConclude(s, w))
  {}

  ghost predicate NeverRegresses(cfg: Config, overlap: nat, maxWindow: nat) {
    forall s, step :: TunedReachable(cfg, overlap, maxWindow, s) && Tuned(cfg, overlap, maxWindow)(s, step).Some? ==>
      KeepsMark(s, Apply(cfg, s, step))
  }

  /**
   * Over all interleavings, with windows reclaimed and finished by any workers, the watermark never decreases
   * exactly when the overlap is at most the window length.
   */
  lemma MonotoneExactly(cfg: Config, overlap: nat, maxWindow: nat)
    requires cfg.overlap <= overlap
    ensures NeverRegresses(cfg, overlap, maxWindow) <==> overlap <= maxWindow
  {
    var machine := Tuned(cfg, overlap, maxWindow);
    if overlap <= maxWindow {
      forall s, step | MarkInv(s) && machine(s, step).Some? ensures MarkInv(machine(s, step).value) {
        StepKeepsMark(cfg, overlap, maxWindow, s, step);
      }
      forall s, step | TunedReachable(cfg, overlap, maxWindow, s) && machine(s, step).Some?
        ensures KeepsMark(s, Apply(cfg, s, step))
      {
        ReachableKeeps(machine, Initial, MarkInv, s);
        StepKeepsMark(cfg, overlap, maxWindow, s, step);
      }
    } else {
      var s := Regression(cfg, overlap, maxWindow);
      assert machine(s, Conclude(0)).Some? && !KeepsMark(s, Apply(cfg, s, Conclude(0)));
    }
  }

  /** At time 0 one window finishes; the next one, too short for the overlap, ends below its watermark. */
  lemma Regression(cfg: Config, overlap: nat, maxWindow: nat) returns (s: State)
    requires cfg.overlap <= overlap && maxWindow < overlap
    ensures TunedReachable(cfg, overlap, maxWindow, s) && Enabled(cfg, s, Conclude(0)) && s.finished == 1
    ensures !KeepsMark(s, Apply(cfg, s, Conclude(0)))
  {
    var machine := Tuned(cfg, overlap, maxWindow);
    s := Init(0);
    Begin(machine, Initial, s);
    s := Extend(machine, Initial, s, ClaimScope(ClaimRequest(None, overlap, maxWindow, 0, 1)));
    assert s.row == Some(Checkpoint(None, None, Some(0), None, 0, Some(1), Some(LEASE_SECONDS)));
    s := EmptyPass(cfg, overlap, maxWindow, s, 1);
    s := Extend(machine, Initial, s, Conclude(0));
    s := SecondWindow(cfg, overlap, maxWindow, s);
  }

  lemma SecondWindow(cfg: Config, overlap: nat, maxWindow: nat, start: State) returns (s: State)
    requires cfg.overlap <= overlap && maxWindow < overlap && TunedReachable(cfg, overlap, maxWindow, start)
    requires start.now == 0 && start.table == map[] && start.workers == map[] && 2 !in start.issued
    requires start.row == Some(Checkpoint(Some(0), None, None, None, 0, None, None)) && start.finished == 1
    ensures TunedReachable(cfg, overlap, maxWindow, s) && Enabled(cfg, s, Conclude(0)) && s.finished == 1
    ensures !KeepsMark(s, Apply(cfg, s, Conclude(0)))
  {
    var machine := Tuned(cfg, overlap, maxWindow);
    s := Extend(machine, Initial, start, ClaimScope(ClaimRequest(None, overlap, maxWindow, 0, 2)));
    assert s.row.value.windowEnd == Some(maxWindow - overlap);
    s := EmptyPass(cfg, overlap, maxWindow, s, 2);
  }

  /** A worker takes an empty page of the open window. */
  lemma EmptyPass(cfg: Config, overlap: nat, maxWindow: nat, start: State, token: Token) returns (s: State)
    requires TunedReachable(cfg, overlap, maxWindow, start) && start.table == map[] && start.workers == map[]
    requires ReadOwned(start.row, token, start.now).Some? && start.row.value.windowEnd.Some?
    ensures TunedReachable(cfg, overlap, maxWindow, s)
    ensures s == start.(workers := map[0 := Worker(token, 1,
      Paged(OpenWindow(start.row.value), CursorOf(start.row.value), [], 0))])
  {
    var machine := Tuned(cfg, overlap, maxWindow);
    s := Extend(machine, Initial, start, Start(0, token, 1));
    s := Extend(machine, Initial, s, Read(0));
    s := Extend(machine, Initial, s, Fetch(0, []));
  }

  /**
   * However a window is reclaimed and whoever finishes it, the watermark it leaves is decided by its claim: the
   * clock of the claim, or the old watermark less the overlap plus the window length, whichever is first.
   */
  lemma NextWatermark(cfg: Config, s: State, req: ClaimRequest, steps: seq<Step>, last: Step)
    requires s.row.Some? && s.row.value.windowEnd.None? && s.row.value.watermark.Some?
    requires Enabled(cfg, s, ClaimScope(req)) && Claim(s.row, req, s.now).Claimed?
    requires Run(Machine(cfg), ApplyClaim(s, req), steps).Some?
    requires
      var t := Run(Machine(cfg), ApplyClaim(s, req), steps).value;
      t.finished == s.finished && Enabled(cfg, t, last) && Apply(cfg, t, last).finished > s.finished
    ensures
      var end := Apply(cfg, Run(Machine(cfg), ApplyClaim(s, req), steps).value, last);
      && end.row.Some?
      && end.row.value.watermark == Some(Min(s.now, s.row.value.watermark.value - req.overlap + req.maxWindow))
    ensures ApplyClaim(s, req).row.value.windowStart == Some(s.row.value.watermark.value - req.overlap)
  {
    var open := ApplyClaim(s, req);
    var t := Run(Machine(cfg), open, steps).value;
    assert open.row.value.windowEnd == Some(Min(s.now, s.row.value.watermark.value - req.overlap + req.maxWindow));
    WindowFixed(cfg, open, steps);
    FinishSetsMark(cfg, t, last);
  }

  lemma FinishSetsMark(cfg: Config, s: State, step: Step)
    requires Enabled(cfg, s, step) && Apply(cfg, s, step).finished > s.finished && s.row.Some?
    ensures Apply(cfg, s, step).row.Some? && Apply(cfg, s, step).row.value.watermark == s.row.value.windowEnd
  {}

  // ---- Catching up ---------------------------------------------------------------------------------------

  /** What n windows gain: n times `step`. */
  function Gain(n: nat, step: nat): nat {
    if n == 0 then 0 else step + Gain(n - 1, step)
  }

  lemma {:induction false} GainIsProduct(n: nat, step: nat)
    ensures Gain(n, step) == n * step
  {
    if n > 0 {
      GainIsProduct(n - 1, step);
    }
  }

  /** Between windows, with watermark `mark` at or before the clock. */
  predicate IdleAt(s: State, mark: Time) { MarkInv(s) && Idle(s.row, mark) }

  /** How far n windows have brought a watermark, or one more the end of an open window, that began at `mark`. */
  predicate Climbed(at: Time, mark: Time, n: nat, step: nat, target: Time) {
    Min(target, mark + Gain(n, step)) <= at <= mark + Gain(n, step)
  }

  /** `t` is later in a run that began between windows, `first` windows finished and the watermark at `mark`. */
  predicate Climbing(t: State, mark: Time, first: nat, step: nat, target: Time) {
    && MarkInv(t) && target <= t.now && first <= t.finished && t.finished > 0
    && t.row.Some? && t.row.value.watermark.Some?
    && Climbed(t.row.value.watermark.value, mark, t.finished - first, step, target)
    && (t.row.value.windowEnd.Some? ==> Climbed(t.row.value.windowEnd.value, mark, t.finished - first + 1, step, target))
  }

  lemma ClaimClimbs(t: State, req: ClaimRequest, mark: Time, first: nat, target: Time)
    requires req.overlap <= req.maxWindow && Climbing(t, mark, first, req.maxWindow - req.overlap, target)
    requires MarkInv(ApplyClaim(t, req))
    ensures Climbing(ApplyClaim(t, req), mark, first, req.maxWindow - req.overlap, target)
  {}

  lemma ConcludeClimbs(t: State, w: nat, mark: Time, first: nat, step: nat, target: Time)
    requires w in t.workers && t.workers[w].phase.Paged? && Climbing(t, mark, first, step, target)
    requires MarkInv(ApplyConclude(t, w))
    ensures Climbing(ApplyConclude(t, w), mark, first, step, target)
  {}

  lemma StepClimbs(cfg: Config, overlap: nat, maxWindow: nat, t: State, step: Step, mark: Time, first: nat, target: Time)
    requires overlap <= maxWindow && Tuned(cfg, overlap, maxWindow)(t, step).Some?
    requires Climbing(t, mark, first, maxWindow - overlap, target)
    ensures Climbing(Apply(cfg, t, step), mark, first, maxWindow - overlap, target)
  {
    StepKeepsMark(cfg, overlap, maxWindow, t, step);
    if step.ClaimScope? {
      ClaimClimbs(t, step.req, mark, first, target);
    } else if step.Conclude? {
      ConcludeClimbs(t, step.w, mark, first, maxWindow - overlap, target);
    }
  }

  /**
   * Over every run that begins between windows with the clock at or past `target`, whoever reclaims and finishes
   * the windows: n finished windows have brought the watermark to `target` or gained n times the window length
   * less the overlap, and never more than that.
   */
  lemma CatchUp(cfg: Config, overlap: nat, maxWindow: nat, s: State, steps: seq<Step>, mark: Time, target: Time)
    requires overlap <= maxWindow && IdleAt(s, mark) && mark <= target <= s.now
    requires Run(Tuned(cfg, overlap, maxWindow), s, steps).Some?
    ensures
      var end := Run(Tuned(cfg, overlap, maxWindow), s, steps).value;
      && s.finished <= end.finished && end.row.Some? && end.row.value.watermark.Some?
      && Climbed(end.row.value.watermark.value, mark, end.finished - s.finished, maxWindow - overlap, target)
      && end.row.value.watermark.value <= end.now
  {
    var machine, gain := Tuned(cfg, overlap, maxWindow), maxWindow - overlap;
    StartsClimbing(s, mark, gain, target);
    RunClimbs(cfg, overlap, maxWindow, s, steps, mark, s.finished, target);
    ClimbedTo(Run(machine, s, steps).value, mark, s.finished, gain, target);
  }

  lemma {:induction false} RunClimbs(cfg: Config, overlap: nat, maxWindow: nat, t: State, steps: seq<Step>,
                                     mark: Time, first: nat, target: Time)
    requires overlap <= maxWindow && Run(Tuned(cfg, overlap, maxWindow), t, steps).Some?
    requires Climbing(t, mark, first, maxWindow - overlap, target)
    ensures Climbing(Run(Tuned(cfg, overlap, maxWindow), t, steps).value, mark, first, maxWindow - overlap, target)
    decreases |steps|
  {
    if steps != [] {
      StepClimbs(cfg, overlap, maxWindow, t, steps[0], mark, first, target);
      RunClimbs(cfg, overlap, maxWindow, Apply(cfg, t, steps[0]), steps[1..], mark, first, target);
    }
  }

  lemma StartsClimbing(s: State, mark: Time, gain: nat, target: Time)
    requires IdleAt(s, mark) && mark <= target <= s.now
    ensures Climbing(s, mark, s.finished, gain, target)
  {}

  lemma ClimbedTo(t: State, mark: Time, first: nat, gain: nat, target: Time)
    requires Climbing(t, mark, first, gain, target)
    ensures first <= t.finished && t.row.Some? && t.row.value.watermark.Some? && t.row.value.watermark.value <= t.now
    ensures Climbed(t.row.value.watermark.value, mark, t.finished - first, gain, target)
  {}

  function CeilDiv(a: nat, b: nat): nat
    requires b > 0
  {
    (a + b - 1) / b
  }

  lemma CeilDivCovers(a: nat, b: nat)
    requires b > 0
    ensures a <= CeilDiv(a, b) * b < a + b
  {
    var n := a + b - 1;
    assert n == b * (n / b) + n % b;
  }

  lemma AtLeast(n: nat, m: nat, step: nat)
    requires n >= m
    ensures n * step >= m * step
  {}

  /** Catching up with `target` takes at most the lag divided by the gain of one window, rounded up. */
  lemma CatchUpBound(cfg: Config, overlap: nat, maxWindow: nat, s: State, steps: seq<Step>, mark: Time, target: Time)
    requires overlap < maxWindow && IdleAt(s, mark) && mark <= target <= s.now
    requires Run(Tuned(cfg, overlap, maxWindow), s, steps).Some?
    requires Run(Tuned(cfg, overlap, maxWindow), s, steps).value.finished
             >= s.finished + CeilDiv(target - mark, maxWindow - overlap)
    ensures
      var end := Run(Tuned(cfg, overlap, maxWindow), s, steps).value;
      end.row.Some? && end.row.value.watermark.Some? && end.row.value.watermark.value >= target
  {
    var gain := maxWindow - overlap;
    CatchUp(cfg, overlap, maxWindow, s, steps, mark, target);
    var n := Run(Tuned(cfg, overlap, maxWindow), s, steps).value.finished - s.finished;
    CeilDivCovers(target - mark, gain);
    GainIsProduct(n, gain);
    AtLeast(n, CeilDiv(target - mark, gain), gain);
  }

  /** Neither the watermark nor the end of an open window is past `mark`. */
  predicate Stuck(t: State, mark: Time) {
    && t.row.Some? && t.row.value.watermark.Some? && t.row.value.watermark.value <= mark
    && (t.row.value.leaseToken.Some? ==> t.row.value.windowEnd.Some?)
    && (t.row.value.windowEnd.Some? ==> t.row.value.windowEnd.value <= mark)
  }

  lemma StepStuck(cfg: Config, overlap: nat, maxWindow: nat, t: State, step: Step, mark: Time)
    requires maxWindow <= overlap && Stuck(t, mark) && Tuned(cfg, overlap, maxWindow)(t, step).Some?
    ensures Stuck(Apply(cfg, t, step), mark)
  {}

  /** With an overlap of at least the window length no run, of any length, ever advances the watermark. */
  lemma NeverCatchesUp(cfg: Config, overlap: nat, maxWindow: nat, s: State, steps: seq<Step>, mark: Time)
    requires maxWindow <= overlap && Idle(s.row, mark)
    requires Run(Tuned(cfg, overlap, maxWindow), s, steps).Some?
    ensures
      var end := Run(Tuned(cfg, overlap, maxWindow), s, steps).value;
      end.row.Some? && end.row.value.watermark.Some? && end.row.value.watermark.value <= mark
  {
    var machine := Tuned(cfg, overlap, maxWindow);
    var inv := (t: State) => Stuck(t, mark);
    forall t, step | inv(t) && machine(t, step).Some? ensures inv(machine(t, step).value) {
      StepStuck(cfg, overlap, maxWindow, t, step, mark);
    }
    Runs.RunKeeps(machine, inv, s, steps);
  }
}
