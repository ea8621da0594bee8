/**
 * What holds of every run of the projection protocol: no lost row, exactly when the overlap covers the
 * commit delay; fencing by lease tokens; fixed windows; and where a document can fall behind its row.
 */
module ProjectionTheorems {
  import opened Common
  import opened KeysetPaging
  import opened ProjectionCheckpoint
  import opened ProjectionProtocol
  import opened Runs

  predicate Initial(s: State) { s == Init(s.now) }

  ghost predicate Reachable(cfg: Config, s: State) { Runs.Reachable(Machine(cfg), Initial, s) }

  lemma ReachableInv(cfg: Config, s: State)
    requires cfg.lag <= cfg.overlap && Reachable(cfg, s)
    ensures Inv(cfg, s)
  {
    var s0: State, steps: seq<Step> :| Initial(s0) && Run(Machine(cfg), s0, steps) == Some(s);
    ProjectionProtocol.RunKeeps(cfg, s0, steps);
  }

  // ---- No lost row ---------------------------------------------------------------------------

  /** Every current row stamped after the first window's start and at or before `watermark - slack` is covered. */
  ghost predicate NothingLost(cfg: Config, s: State, slack: nat) {
    s.finished > 0 ==>
      && s.row.Some? && s.row.value.watermark.Some?
      && Frontier(cfg, s, s.row.value.watermark.value - slack)
  }

  /** The strong form: the protocol answers for everything up to the commit delay below the watermark. */
  lemma NoLostRow(cfg: Config, s: State)
    requires cfg.lag <= cfg.overlap && Reachable(cfg, s)
    ensures NothingLost(cfg, s, cfg.lag)
    ensures NothingLost(cfg, s, cfg.overlap)
  {
    ReachableInv(cfg, s);
    if s.finished > 0 {
      var mark := s.row.value.watermark.value;
      forall k | k in s.table && InWindow(s.table[k], Window(s.base, mark - cfg.overlap))
        ensures Covered(cfg, s, k)
      {
        assert InWindow(s.table[k], Window(s.base, mark - cfg.lag));
      }
    }
  }

  /** The overlap is not only enough but necessary: with a longer commit delay some run loses a row. */
  lemma NoLostRowExactly(cfg: Config)
    ensures (forall s :: Reachable(cfg, s) ==> NothingLost(cfg, s, cfg.overlap)) <==> cfg.lag <= cfg.overlap
  {
    if cfg.lag <= cfg.overlap {
      forall s | Reachable(cfg, s) ensures NothingLost(cfg, s, cfg.overlap) {
        NoLostRow(cfg, s);
      }
    } else {
      var s := LateCommit(cfg);
      assert !NothingLost(cfg, s, cfg.overlap);
    }
  }

  /** The protocol when the scope's first claim has this seed and overlap. */
  function Seeded(cfg: Config, seed: Option<Time>, overlap: nat): (State, Step) -> Option<State> {
    (s, step) =>
      if Enabled(cfg, s, step) && (step.ClaimScope? && s.row.None? ==> step.req.seed == seed && step.req.overlap == overlap)
      then Some(Apply(cfg, s, step)) else None
  }

  /** The first window's start, from the seed. */
  predicate StartsFrom(s: State, seed: Option<Time>, overlap: nat) {
    s.row.Some? ==>
      (seed.None? ==> s.base.None?) && (seed.Some? ==> s.base == Some(seed.value - overlap))
  }

  lemma StepStartsFrom(cfg: Config, seed: Option<Time>, overlap: nat, s: State, step: Step)
    requires StartsFrom(s, seed, overlap) && Seeded(cfg, seed, overlap)(s, step).Some?
    ensures StartsFrom(Apply(cfg, s, step), seed, overlap)
  {
    if step.ClaimScope? && s.row.None? {
      FirstWindow(step.req, s.now);
    }
  }

  lemma {:induction false} RunStartsFrom(cfg: Config, seed: Option<Time>, overlap: nat, s: State, steps: seq<Step>)
    requires StartsFrom(s, seed, overlap) && Run(Seeded(cfg, seed, overlap), s, steps).Some?
    ensures StartsFrom(Run(Seeded(cfg, seed, overlap), s, steps).value, seed, overlap)
    decreases |steps|
  {
    if steps != [] {
      StepStartsFrom(cfg, seed, overlap, s, steps[0]);
      RunStartsFrom(cfg, seed, overlap, Apply(cfg, s, steps[0]), steps[1..]);
    }
  }

  /**
   * In terms of the rows' own columns: once a window has finished, every eligible row stamped after the seed less
   * the overlap (any row, without a seed) and at or before the watermark less the overlap is projected.
   */
  lemma NoLostRowSinceSeed(cfg: Config, seed: Option<Time>, overlap: nat, s: State, k: Key)
    requires cfg.lag <= cfg.overlap && Runs.Reachable(Seeded(cfg, seed, overlap), Initial, s)
    requires s.finished > 0 && k in s.table && s.table[k].eligible
    ensures s.row.Some? && s.row.value.watermark.Some?
    ensures
      var stamp, mark := s.table[k].stamp, s.row.value.watermark.value;
      (seed.Some? ==> seed.value - overlap < stamp) && stamp <= mark - cfg.overlap ==> Covered(cfg, s, k)
  {
    ReachableWithin(Seeded(cfg, seed, overlap), Machine(cfg), Initial, s);
    NoLostRow(cfg, s);
    var s0: State, steps: seq<Step> :| Initial(s0) && Run(Seeded(cfg, seed, overlap), s0, steps) == Some(s);
    RunStartsFrom(cfg, seed, overlap, s0, steps);
  }

  lemma FromInit(cfg: Config, now: Time) returns (s: State)
    ensures s == Init(now) && Reachable(cfg, s)
  {
    s := Init(now);
    Begin(Machine(cfg), Initial, s);
  }

  /** A window (-inf, 0] is claimed and finished at time 0; then a row stamped `-overlap` commits. */
  lemma LateCommit(cfg: Config) returns (s: State)
    requires cfg.lag > cfg.overlap
    ensures Reachable(cfg, s) && !NothingLost(cfg, s, cfg.overlap)
  {
    s := FromInit(cfg, 0);
    s := Extend(Machine(cfg), Initial, s, ClaimScope(ClaimRequest(None, cfg.overlap, 1, 0, 1)));
    s := TakePage(cfg, s, 0, 1, 1, []);
    s := Extend(Machine(cfg), Initial, s, Conclude(0));
    s := Extend(Machine(cfg), Initial, s, Write(7, 0 - cfg.overlap, true));
    assert InWindow(s.table[7], Window(s.base, s.row.value.watermark.value - cfg.overlap));
    assert !Covered(cfg, s, 7);
  }

  /** Also inside an open window: every due row at or before the cursor is covered, whoever moved the cursor. */
  lemma CoveredBelowCursor(cfg: Config, s: State, k: Key)
    requires cfg.lag <= cfg.overlap && Reachable(cfg, s)
    requires s.row.Some? && s.row.value.windowEnd.Some? && k in s.table
    requires Due(cfg, s, OpenWindow(s.row.value), k)
    requires !Beyond(CursorOf(s.row.value), PositionOf(k, s.table[k]))
    ensures Covered(cfg, s, k)
  {
    ReachableInv(cfg, s);
  }

  /** A fresh worker starts under the current token, reads the window and fetches a page. */
  lemma TakePage(cfg: Config, start: State, w: nat, token: Token, batch: nat, page: seq<Entry>) returns (s: State)
    requires Reachable(cfg, start) && w !in start.workers && batch > 0
    requires start.row.Some? && start.row.value.windowEnd.Some? && ReadOwned(start.row, token, start.now).Some?
    requires IsPage(start.table, OpenWindow(start.row.value), CursorOf(start.row.value), batch, page)
    ensures Reachable(cfg, s)
    ensures s == start.(workers := start.workers[w := Worker(token, batch,
      Paged(OpenWindow(start.row.value), CursorOf(start.row.value), page, 0))])
  {
    s := Extend(Machine(cfg), Initial, start, Start(w, token, batch));
    s := Extend(Machine(cfg), Initial, s, Read(w));
    s := Extend(Machine(cfg), Initial, s, Fetch(w, page));
  }

  /** The cursor itself is not monotone: a duplicate worker under the same token moves it back. */
  lemma CursorCanMoveBack(cfg: Config) returns (before: State, after: State, step: Step)
    requires cfg.lag > 0
    ensures Reachable(cfg, before) && Enabled(cfg, before, step) && after == Apply(cfg, before, step)
    ensures before.row.Some? && after.row.Some? && before.row.value.windowEnd.Some? && after.row.value.windowEnd.Some?
    ensures var c, d := CursorOf(before.row.value), CursorOf(after.row.value);
            c.Some? && d.Some? && Before(d.value, c.value)
  {
    var first, second := Entry(1, Row(0, 0, true)), Entry(2, Row(0, 1, true));
    var s := TwoRowsClaimed(cfg);
    assert IsPage(s.table, Window(None, 0), None, 1, [first]);
    s := TakePage(cfg, s, 0, 1, 1, [first]);
    assert IsPage(s.table, Window(None, 0), None, 2, [first, second]);
    s := TakePage(cfg, s, 1, 1, 2, [first, second]);
    before, after := BackAgain(cfg, s, first, second);
    step := Conclude(0);
  }

  lemma TwoRowsClaimed(cfg: Config) returns (s: State)
    requires cfg.lag > 0
    ensures Reachable(cfg, s) && s.now == 0 && s.workers == map[]
    ensures s.table == map[1 := Row(0, 0, true), 2 := Row(0, 1, true)]
    ensures s.row == Some(Checkpoint(None, None, Some(0), None, 0, Some(1), Some(LEASE_SECONDS)))
  {
    s := FromInit(cfg, 0);
    s := Extend(Machine(cfg), Initial, s, Write(1, 0, true));
    s := Extend(Machine(cfg), Initial, s, Write(2, 0, true));
    s := Extend(Machine(cfg), Initial, s, ClaimScope(ClaimRequest(None, cfg.overlap, 1, 0, 1)));
  }

  lemma BackAgain(cfg: Config, s: State, first: Entry, second: Entry) returns (before: State, after: State)
    requires Reachable(cfg, s) && OwnedBy(s.row, 1) && s.row.value.windowEnd.Some?
    requires 0 in s.workers && 1 in s.workers
    requires first.key == 1 && second.key == 2 && first.row.stamp == second.row.stamp
    requires s.workers[0] == Worker(1, 1, Paged(Window(None, 0), None, [first], 0))
    requires s.workers[1] == Worker(1, 2, Paged(Window(None, 0), None, [first, second], 0))
    ensures Reachable(cfg, before) && Enabled(cfg, before, Conclude(0)) && after == Apply(cfg, before, Conclude(0))
    ensures before.row.Some? && before.row.value.windowEnd.Some? && CursorOf(before.row.value) == Some(Pos(second))
    ensures after.row.Some? && after.row.value.windowEnd.Some? && CursorOf(after.row.value) == Some(Pos(first))
  {
    before := BothProjected(cfg, s, first, second);
    before := Extend(Machine(cfg), Initial, before, Conclude(1));
    after := Extend(Machine(cfg), Initial, before, Conclude(0));
  }

  lemma BothProjected(cfg: Config, s: State, first: Entry, second: Entry) returns (t: State)
    requires Reachable(cfg, s) && 0 in s.workers && 1 in s.workers
    requires s.workers[0] == Worker(1, 1, Paged(Window(None, 0), None, [first], 0))
    requires s.workers[1] == Worker(1, 2, Paged(Window(None, 0), None, [first, second], 0))
    ensures Reachable(cfg, t) && t.row == s.row && 0 in t.workers && 1 in t.workers
    ensures t.workers[0] == Worker(1, 1, Paged(Window(None, 0), None, [first], 1))
    ensures t.workers[1] == Worker(1, 2, Paged(Window(None, 0), None, [first, second], 2))
  {
    t := Extend(Machine(cfg), Initial, s, Project(0));
    t := Extend(Machine(cfg), Initial, t, Project(1));
    t := Extend(Machine(cfg), Initial, t, Project(1));
  }

  // ---- Fencing -------------------------------------------------------------------------------

  predicate Current(s: State, t: Token) { OwnedBy(s.row, t) }

  /** A token that was issued and is no longer current stays out for the rest of the run. */
  lemma {:induction false} RetiredForever(cfg: Config, s: State, steps: seq<Step>, t: Token)
    requires t in s.issued && !Current(s, t) && Run(Machine(cfg), s, steps).Some?
    ensures t in Run(Machine(cfg), s, steps).value.issued && !Current(Run(Machine(cfg), s, steps).value, t)
    decreases |steps|
  {
    if steps != [] {
      RetiredForever(cfg, Apply(cfg, s, steps[0]), steps[1..], t);
    }
  }

  /** Once a lease is lost, no later step of any worker under the old token changes the checkpoint. */
  lemma Fencing(cfg: Config, s: State, steps: seq<Step>, step: Step, t: Token)
    requires t in s.issued && !Current(s, t) && Run(Machine(cfg), s, steps).Some?
    requires Enabled(cfg, Run(Machine(cfg), s, steps).value, step)
    requires step.Read? || step.Fetch? || step.Project? || step.Conclude? || step.Crash?
    requires Run(Machine(cfg), s, steps).value.workers[step.w].token == t
    ensures Apply(cfg, Run(Machine(cfg), s, steps).value, step).row == Run(Machine(cfg), s, steps).value.row
  {
    RetiredForever(cfg, s, steps, t);
  }

  lemma StepWindow(cfg: Config, s: State, step: Step)
    requires Enabled(cfg, s, step)
    requires s.row.Some? && s.row.value.windowEnd.Some?
    requires Apply(cfg, s, step).finished == s.finished
    ensures SameWindow(s, Apply(cfg, s, step))
  {}

  /** Both rows have an open window, the same one, over the same watermark. */
  predicate SameWindow(s: State, s2: State) {
    && s.row.Some? && s.row.value.windowEnd.Some? && s2.row.Some? && s2.row.value.windowEnd.Some?
    && OpenWindow(s2.row.value) == OpenWindow(s.row.value) && s2.row.value.watermark == s.row.value.watermark
  }

  lemma {:induction false} FinishedGrows(cfg: Config, s: State, steps: seq<Step>)
    requires Run(Machine(cfg), s, steps).Some?
    ensures Run(Machine(cfg), s, steps).value.finished >= s.finished
    decreases |steps|
  {
    if steps != [] {
      FinishedGrows(cfg, Apply(cfg, s, steps[0]), steps[1..]);
    }
  }

  lemma FinishedGrowsOnce(cfg: Config, s: State, step: Step)
    requires Enabled(cfg, s, step)
    ensures s.finished <= Apply(cfg, s, step).finished <= s.finished + 1
  {}

  /** Window bounds and watermark stay fixed from claim to finish, across any number of reclaims. */
  lemma {:induction false} WindowFixed(cfg: Config, s: State, steps: seq<Step>)
    requires Run(Machine(cfg), s, steps).Some?
    requires s.row.Some? && s.row.value.windowEnd.Some?
    requires Run(Machine(cfg), s, steps).value.finished == s.finished
    ensures SameWindow(s, Run(Machine(cfg), s, steps).value)
    decreases |steps|
  {
    if steps != [] {
      var next := Apply(cfg, s, steps[0]);
      FinishedGrowsOnce(cfg, s, steps[0]);
      FinishedGrows(cfg, next, steps[1..]);
      StepWindow(cfg, s, steps[0]);
      WindowFixed(cfg, next, steps[1..]);
    }
  }

  // ---- Settled windows ------------------------------------------------------------------------------

  lemma StepOnlyMovesOut(cfg: Config, s: State, step: Step, w: Window)
    requires Enabled(cfg, s, step) && w.end + cfg.lag <= s.now
    ensures OnlyMovesOut(s.table, Apply(cfg, s, step).table, w)
    ensures s.now <= Apply(cfg, s, step).now
  {}

  /** Once the commit delay has passed, whatever happens only takes rows out of the window. */
  lemma RunOnlyMovesOut(cfg: Config, s: State, steps: seq<Step>, w: Window)
    requires Run(Machine(cfg), s, steps).Some? && w.end + cfg.lag <= s.now
    ensures OnlyMovesOut(s.table, Run(Machine(cfg), s, steps).value.table, w)
    ensures s.now <= Run(Machine(cfg), s, steps).value.now
  {
    var inv := (t: State) => s.now <= t.now && OnlyMovesOut(s.table, t.table, w);
    forall t, step | inv(t) && Enabled(cfg, t, step) ensures inv(Apply(cfg, t, step)) {
      StepOnlyMovesOut(cfg, t, step, w);
      MovesOutTwice(s.table, t.table, Apply(cfg, t, step).table, w);
    }
    Runs.RunKeeps(Machine(cfg), inv, s, steps);
  }

  // ---- Documents and rows --------------------------------------------------------------------

  /** Documents hold the current version of every row the protocol answers for. */
  ghost predicate DocumentsCurrent(cfg: Config, s: State) {
    s.finished > 0 && s.row.Some? && s.row.value.watermark.Some? ==>
      forall k :: k in s.table && InWindow(s.table[k], Window(s.base, s.row.value.watermark.value - cfg.lag)) ==>
        var g := cfg.group(k);
        g in s.docs && k in s.docs[g] && s.docs[g][k] == s.table[k]
  }

  /** Documents never fall behind their rows exactly for scopes that reload rows when they render. */
  lemma DocumentsCurrentExactly(cfg: Config)
    requires 0 < cfg.lag <= cfg.overlap
    ensures (forall s :: Reachable(cfg, s) ==> DocumentsCurrent(cfg, s)) <==> cfg.reload
  {
    if cfg.reload {
      forall s | Reachable(cfg, s) ensures DocumentsCurrent(cfg, s) {
        NoLostRow(cfg, s);
      }
    } else {
      var s := StaleRender(cfg);
      assert !DocumentsCurrent(cfg, s);
    }
  }

  /**
   * Worker 0 holds version 0 of row 1 when its lease lapses; the row is rewritten, the window reclaimed
   * and finished without it, the next window projects version 1, and then worker 0 renders version 0.
   */
  lemma StaleRender(cfg: Config) returns (s: State)
    requires !cfg.reload && cfg.lag > 0
    ensures Reachable(cfg, s) && !DocumentsCurrent(cfg, s)
  {
    s := PageThenRewrite(cfg);
    s := Extend(Machine(cfg), Initial, s, ClaimScope(ClaimRequest(None, cfg.overlap, 1, s.now, 2)));
    assert s.row == Some(Checkpoint(None, None, Some(0), None, 0, Some(2), Some(s.now + LEASE_SECONDS)));
    assert IsPage(s.table, Window(None, 0), None, 1, []);
    s := TakePage(cfg, s, 1, 2, 1, []);
    s := Extend(Machine(cfg), Initial, s, Conclude(1));
    s := NextWindowThenStale(cfg, s);
  }

  lemma PageThenRewrite(cfg: Config) returns (s: State)
    requires cfg.lag > 0
    ensures Reachable(cfg, s)
    ensures s.now == LEASE_SECONDS + 1 && s.table == map[1 := Row(s.now, 1, true)]
    ensures s.row == Some(Checkpoint(None, None, Some(0), None, 0, Some(1), Some(LEASE_SECONDS)))
    ensures s.workers == map[0 := Worker(1, 1, Paged(Window(None, 0), None, [Entry(1, Row(0, 0, true))], 0))]
    ensures s.base == None && s.issued == map[1 := Window(None, 0)] && s.finished == 0
  {
    s := OneRowClaimed(cfg);
    s := TakePage(cfg, s, 0, 1, 1, [Entry(1, Row(0, 0, true))]);
    s := Extend(Machine(cfg), Initial, s, Tick(LEASE_SECONDS + 1));
    s := Extend(Machine(cfg), Initial, s, Write(1, LEASE_SECONDS + 1, true));
  }

  lemma OneRowClaimed(cfg: Config) returns (s: State)
    requires cfg.lag > 0
    ensures Reachable(cfg, s) && s.now == 0 && s.table == map[1 := Row(0, 0, true)] && s.nextVersion == 1
    ensures s.row == Some(Checkpoint(None, None, Some(0), None, 0, Some(1), Some(LEASE_SECONDS)))
    ensures s.workers == map[] && s.base == None && s.issued == map[1 := Window(None, 0)] && s.finished == 0
  {
    s := FromInit(cfg, 0);
    s := Extend(Machine(cfg), Initial, s, Write(1, 0, true));
    s := Extend(Machine(cfg), Initial, s, ClaimScope(ClaimRequest(None, cfg.overlap, 1, 0, 1)));
  }

  lemma NextWindowThenStale(cfg: Config, start: State) returns (s: State)
    requires !cfg.reload && cfg.lag > 0 && Reachable(cfg, start)
    requires start.now == LEASE_SECONDS + 1 && start.table == map[1 := Row(start.now, 1, true)]
    requires start.row == Some(Checkpoint(Some(0), None, None, None, 0, None, None))
    requires start.workers == map[0 := Worker(1, 1, Paged(Window(None, 0), None, [Entry(1, Row(0, 0, true))], 0))]
    requires start.base == None && 3 !in start.issued && start.finished > 0
    ensures Reachable(cfg, s) && !DocumentsCurrent(cfg, s)
  {
    var end := start.now + cfg.lag;
    s := Extend(Machine(cfg), Initial, start, Tick(end));
    s := Extend(Machine(cfg), Initial, s, ClaimScope(ClaimRequest(None, cfg.overlap, cfg.overlap + end, end, 3)));
    assert OpenWindow(s.row.value) == Window(Some(0 - cfg.overlap), end);
    s := TakePage(cfg, s, 2, 3, 2, [Entry(1, Row(start.now, 1, true))]);
    s := ProjectThenStale(cfg, s, end);
  }

  /** Worker 2 projects the newest version and finishes the window; then worker 0 renders what it had read. */
  lemma ProjectThenStale(cfg: Config, start: State, end: Time) returns (s: State)
    requires !cfg.reload && cfg.lag > 0 && Reachable(cfg, start) && start.now == end == LEASE_SECONDS + 1 + cfg.lag
    requires start.table == map[1 := Row(LEASE_SECONDS + 1, 1, true)]
    requires start.row.Some? && OwnedBy(start.row, 3) && start.row.value.windowEnd == Some(end)
    requires start.workers.Keys == {0, 2}
    requires start.workers[0] == Worker(1, 1, Paged(Window(None, 0), None, [Entry(1, Row(0, 0, true))], 0))
    requires start.workers[2].token == 3 && start.workers[2].batch == 2 && start.workers[2].phase.Paged?
    requires start.workers[2].phase.page == [Entry(1, Row(LEASE_SECONDS + 1, 1, true))] && start.workers[2].phase.done == 0
    requires start.base == None && start.finished > 0
    ensures Reachable(cfg, s) && !DocumentsCurrent(cfg, s)
  {
    s := Extend(Machine(cfg), Initial, start, Project(2));
    s := Extend(Machine(cfg), Initial, s, Conclude(2));
    s := Extend(Machine(cfg), Initial, s, Project(0));
    assert InWindow(s.table[1], Window(s.base, s.row.value.watermark.value - cfg.lag));
    assert s.docs[cfg.group(1)][1] == Row(0, 0, true);
  }
}
