/**
 * The stored cursor of an open window (workflows/company_context_documents.py, `_advance_scope_cursor` and the
 * continuation of `_run_scope_batch`): when it never moves back, and why the chain of continuations ends.
 */
module ProjectionCursor {
  import opened Common
  import opened KeysetPaging
  import opened ProjectionCheckpoint
  import opened ProjectionProtocol
  import opened ProjectionTheorems
  import opened Runs

  /** No other worker under the same token has read the checkpoint and not yet ended. */
  predicate Alone(s: State, w: nat)
    requires w in s.workers
  {
    forall v :: v in s.workers && v != w && s.workers[v].token == s.workers[w].token ==> s.workers[v].phase.Started?
  }

  /** The protocol; with `single`, a worker reads the checkpoint only while no other of its token is at work. */
  function Chained(cfg: Config, single: bool): (State, Step) -> Option<State> {
    (s, step) =>
      if Enabled(cfg, s, step) && (single && step.Read? ==> Alone(s, step.w)) then Some(Apply(cfg, s, step)) else None
  }

  ghost predicate ChainedReachable(cfg: Config, single: bool, s: State) {
    Runs.Reachable(Chained(cfg, single), Initial, s)
  }

  predicate IsOpen(s: State) { s.row.Some? && s.row.value.windowEnd.Some? }

  // ---- What single workers keep ---------------------------------------------------------------------

  /** A worker at work under the current token is where the checkpoint is, and its page lies beyond. */
  predicate Fits(s: State, worker: Worker) {
    !worker.phase.Started? ==>
      && worker.token in s.issued
      && (OwnedBy(s.row, worker.token) ==>
            && IsOpen(s) && worker.phase.window == OpenWindow(s.row.value)
            && worker.phase.cursor == CursorOf(s.row.value))
      && (worker.phase.Paged? && worker.phase.page != [] ==>
            Beyond(worker.phase.cursor, LastPosition(worker.phase.page)))
  }

  predicate LeaseIssued(s: State) {
    s.row.Some? && s.row.value.leaseToken.Some? ==> s.row.value.leaseToken.value in s.issued && IsOpen(s)
  }

  ghost predicate ChainInv(s: State) {
    && LeaseIssued(s)
    && (forall w :: w in s.workers ==> Fits(s, s.workers[w]))
    && (forall w :: w in s.workers && !s.workers[w].phase.Started? ==> Alone(s, w))
  }

  /** Steps that leave the checkpoint and the tokens alone, and put no new worker to work. */
  lemma QuietKeeps(s: State, s2: State)
    requires ChainInv(s) && s2.row == s.row && s2.issued == s.issued
    requires forall w :: w in s2.workers && !s2.workers[w].phase.Started? ==>
      w in s.workers && !s.workers[w].phase.Started? && s2.workers[w].token == s.workers[w].token
    requires forall w :: w in s2.workers && !s2.workers[w].phase.Started? ==> Fits(s2, s2.workers[w])
    ensures ChainInv(s2)
  {
    forall w | w in s2.workers && !s2.workers[w].phase.Started? ensures Alone(s2, w) {
      assert Alone(s, w);
    }
  }

  lemma ClaimKeepsChain(s: State, req: ClaimRequest)
    requires ChainInv(s) && req.token !in s.issued
    ensures ChainInv(ApplyClaim(s, req))
  {
    var s2 := ApplyClaim(s, req);
    forall w | w in s2.workers ensures Fits(s2, s2.workers[w]) {
      assert Fits(s, s.workers[w]);
    }
    forall w | w in s2.workers && !s2.workers[w].phase.Started? ensures Alone(s2, w) {
      assert Alone(s, w);
    }
  }

  lemma ReadKeepsChain(s: State, w: nat)
    requires ChainInv(s) && w in s.workers && s.workers[w].phase.Started? && Alone(s, w)
    ensures ChainInv(ApplyRead(s, w))
  {
    var s2 := ApplyRead(s, w);
    forall v | v in s2.workers ensures Fits(s2, s2.workers[v]) {
      assert Fits(s, s.workers[v]);
    }
    forall v | v in s2.workers && !s2.workers[v].phase.Started? ensures Alone(s2, v) {
      if v != w {
        assert Alone(s, v);
      }
    }
  }

  lemma FetchedFits(s: State, worker: Worker, page: seq<Entry>)
    requires Fits(s, worker) && worker.phase.Owned?
    requires IsPage(s.table, worker.phase.window, worker.phase.cursor, worker.batch, page)
    ensures Fits(s, worker.(phase := Paged(worker.phase.window, worker.phase.cursor, page, 0)))
  {
    if page != [] {
      FullPageAdvances(s.table, worker.phase.window, worker.phase.cursor, worker.batch, page);
    }
  }

  /** A worker at work moves on. */
  lemma MovesOn(s: State, w: nat, phase: Phase)
    requires ChainInv(s) && w in s.workers && !s.workers[w].phase.Started? && !phase.Started?
    requires Fits(s, s.workers[w].(phase := phase))
    ensures ChainInv(SetPhase(s, w, phase))
  {
    var s2 := SetPhase(s, w, phase);
    forall v | v in s2.workers && !s2.workers[v].phase.Started? ensures Fits(s2, s2.workers[v]) {
      assert v != w ==> Fits(s, s.workers[v]);
    }
    QuietKeeps(s, s2);
  }

  lemma FetchKeepsChain(cfg: Config, s: State, w: nat, page: seq<Entry>)
    requires ChainInv(s) && Enabled(cfg, s, Fetch(w, page))
    ensures ChainInv(Apply(cfg, s, Fetch(w, page)))
  {
    var p := s.workers[w].phase;
    assert Fits(s, s.workers[w]);
    FetchedFits(s, s.workers[w], page);
    MovesOn(s, w, Paged(p.window, p.cursor, page, 0));
  }

  /** The worker that stores a cursor or finishes the window is the only one of its token at work. */
  lemma ConcludeKeepsChain(cfg: Config, s: State, w: nat)
    requires ChainInv(s) && Enabled(cfg, s, Conclude(w))
    ensures ChainInv(ApplyConclude(s, w))
  {
    var s2 := ApplyConclude(s, w);
    assert Alone(s, w);
    forall v | v in s2.workers ensures Fits(s2, s2.workers[v]) {
      assert Fits(s, s.workers[v]);
    }
    forall v | v in s2.workers && !s2.workers[v].phase.Started? ensures Alone(s2, v) {
      assert Alone(s, v);
    }
  }

  lemma OtherKeepsChain(cfg: Config, s: State, step: Step)
    requires ChainInv(s) && Enabled(cfg, s, step)
    requires step.Tick? || step.Write? || step.Delete? || step.Start? || step.Project? || step.Crash?
    ensures ChainInv(Apply(cfg, s, step))
  {
    var s2 := Apply(cfg, s, step);
    forall v | v in s2.workers ensures Fits(s2, s2.workers[v]) {
      if v in s.workers {
        assert Fits(s, s.workers[v]);
      }
    }
    QuietKeeps(s, s2);
  }

  lemma StepKeepsChain(cfg: Config, s: State, step: Step)
    requires ChainInv(s) && Chained(cfg, true)(s, step).Some?
    ensures ChainInv(Apply(cfg, s, step))
  {
    match step
    case ClaimScope(req) => ClaimKeepsChain(s, req);
    case Read(w) => ReadKeepsChain(s, w);
    case Fetch(w, page) => FetchKeepsChain(cfg, s, w, page);
    case Conclude(w) => ConcludeKeepsChain(cfg, s, w);
    case Tick(_) => OtherKeepsChain(cfg, s, step);
    case Write(_, _, _) => OtherKeepsChain(cfg, s, step);
    case Delete(_) => OtherKeepsChain(cfg, s, step);
    case Start(_, _, _) => OtherKeepsChain(cfg, s, step);
    case Project(_) => OtherKeepsChain(cfg, s, step);
    case Crash(_) => OtherKeepsChain(cfg, s, step);
  }

  lemma ReachableChain(cfg: Config, s: State)
    requires ChainedReachable(cfg, true, s)
    ensures ChainInv(s)
  {
    forall s, step | ChainInv(s) && Chained(cfg, true)(s, step).Some? ensures ChainInv(Apply(cfg, s, step)) {
      StepKeepsChain(cfg, s, step);
    }
    var inv := (s: State) => ChainInv(s);
    ReachableKeeps(Chained(cfg, true), Initial, inv, s);
  }

  // ---- The cursor never moves back ------------------------------------------------------------------------

  /** The page whose last row the step stores as the cursor; empty when it stores none. */
  function Advances(s: State, step: Step): seq<Entry> {
    if step.Conclude? && step.w in s.workers && s.workers[step.w].phase.Paged? then
      var worker := s.workers[step.w];
      var page := worker.phase.page;
      if |page| >= worker.batch && page != [] && page[|page| - 1].key != 0 && OwnedBy(s.row, worker.token) then page else []
    else []
  }

  /** Inside an open window a step moves the cursor to the end of the page it stores, or not at all. */
  lemma CursorAfter(cfg: Config, s: State, step: Step)
    requires Enabled(cfg, s, step) && IsOpen(s) && IsOpen(Apply(cfg, s, step))
    ensures
      var page := Advances(s, step);
      CursorOf(Apply(cfg, s, step).row.value)
      == if page == [] then CursorOf(s.row.value) else Some(LastPosition(page))
  {}

  /** The cursor of an open window stays or moves forward. */
  predicate KeepsCursor(s: State, s2: State) {
    IsOpen(s) && IsOpen(s2) && CursorOf(s2.row.value) != CursorOf(s.row.value) ==>
      CursorOf(s2.row.value).Some? && Beyond(CursorOf(s.row.value), CursorOf(s2.row.value).value)
  }

  lemma StepKeepsCursor(cfg: Config, s: State, step: Step)
    requires ChainInv(s) && Enabled(cfg, s, step)
    ensures KeepsCursor(s, Apply(cfg, s, step))
  {
    if IsOpen(s) && IsOpen(Apply(cfg, s, step)) {
      CursorAfter(cfg, s, step);
      if Advances(s, step) != [] {
        assert Fits(s, s.workers[step.w]);
      }
    }
  }

  ghost predicate NeverMovesBack(cfg: Config, single: bool) {
    forall s, step :: ChainedReachable(cfg, single, s) && Chained(cfg, single)(s, step).Some? ==>
      KeepsCursor(s, Apply(cfg, s, step))
  }

  /**
   * Over all runs, the stored cursor of an open window never moves back exactly when a worker only reads the
   * checkpoint while no other worker of its token is at work. (Without a commit delay no row ever appears.)
   */
  lemma CursorMonotoneExactly(cfg: Config, single: bool)
    requires cfg.lag > 0
    ensures NeverMovesBack(cfg, single) <==> single
  {
    if single {
      forall s, step | ChainedReachable(cfg, single, s) && Chained(cfg, single)(s, step).Some?
        ensures KeepsCursor(s, Apply(cfg, s, step))
      {
        ReachableChain(cfg, s);
        StepKeepsCursor(cfg, s, step);
      }
    } else {
      var before, after, step := CursorCanMoveBack(cfg);
      ReachableWithin(Machine(cfg), Chained(cfg, single), Initial, before);
      BeforeIsStrictOrder(CursorOf(before.row.value).value, CursorOf(after.row.value).value, CursorOf(before.row.value).value);
      assert !KeepsCursor(before, after);
    }
  }

  // ---- The chain of continuations ends --------------------------------------------------------------------

  /** A full page held under the current token: concluding it will move the cursor. */
  predicate Holds(s: State, w: nat) {
    && w in s.workers && s.workers[w].phase.Paged? && s.workers[w].phase.page != []
    && OwnedBy(s.row, s.workers[w].token)
  }

  ghost function RowsLeft(s: State, cursor: Option<Position>): nat
    requires IsOpen(s)
  {
    |Left(s.table, OpenWindow(s.row.value), cursor)|
  }

  /** At most `b` rows can still be served: beyond the cursor, or on a held page and beyond it. */
  ghost predicate Bounded(s: State, b: int)
    requires IsOpen(s)
  {
    && RowsLeft(s, CursorOf(s.row.value)) <= b
    && (forall w :: w in s.workers && Holds(s, w) ==> HeldWithin(s, w, b))
  }

  ghost predicate HeldWithin(s: State, w: nat, b: int)
    requires IsOpen(s) && Holds(s, w)
  {
    RowsLeft(s, Some(LastPosition(s.workers[w].phase.page))) + |s.workers[w].phase.page| <= b
  }

  /** Whatever leaves checkpoint window and cursor alone and puts no new page in hand keeps the bound. */
  lemma QuietBounded(s: State, s2: State, b: int)
    requires IsOpen(s) && IsOpen(s2) && Bounded(s, b)
    requires OpenWindow(s2.row.value) == OpenWindow(s.row.value) && CursorOf(s2.row.value) == CursorOf(s.row.value)
    requires OnlyMovesOut(s.table, s2.table, OpenWindow(s.row.value))
    requires forall w :: w in s2.workers && Holds(s2, w) ==>
      w in s.workers && Holds(s, w) && s2.workers[w].phase.page == s.workers[w].phase.page
    ensures Bounded(s2, b)
  {
    var window := OpenWindow(s.row.value);
    LeftShrinks(s.table, s2.table, window, CursorOf(s.row.value));
    forall w | w in s2.workers && Holds(s2, w) ensures HeldWithin(s2, w, b) {
      assert HeldWithin(s, w, b);
      LeftShrinks(s.table, s2.table, window, Some(LastPosition(s.workers[w].phase.page)));
    }
  }

  lemma FetchBounded(cfg: Config, s: State, w: nat, page: seq<Entry>, b: int)
    requires ChainInv(s) && IsOpen(s) && Bounded(s, b) && Enabled(cfg, s, Fetch(w, page))
    ensures Bounded(Apply(cfg, s, Fetch(w, page)), b)
  {
    var s2 := Apply(cfg, s, Fetch(w, page));
    forall v | v in s2.workers && Holds(s2, v) ensures HeldWithin(s2, v, b) {
      if v == w {
        var p := s.workers[w].phase;
        assert Fits(s, s.workers[w]);
        FullPageAdvances(s.table, p.window, p.cursor, s.workers[w].batch, page);
      } else {
        assert Holds(s, v) && HeldWithin(s, v, b);
      }
    }
  }

  /** Storing the cursor uses up the page. */
  lemma AdvanceBounded(cfg: Config, s: State, w: nat, b: int)
    requires ChainInv(s) && IsOpen(s) && Bounded(s, b) && Enabled(cfg, s, Conclude(w)) && Advances(s, Conclude(w)) != []
    ensures IsOpen(ApplyConclude(s, w)) && Bounded(ApplyConclude(s, w), b - |Advances(s, Conclude(w))|)
  {
    var s2 := ApplyConclude(s, w);
    assert Holds(s, w) && HeldWithin(s, w, b) && Alone(s, w);
    forall v | v in s2.workers ensures !Holds(s2, v) {
      assert v in s.workers && v != w;
    }
  }

  lemma StepBounded(cfg: Config, s: State, step: Step, b: int)
    requires ChainInv(s) && Chained(cfg, true)(s, step).Some? && IsOpen(s) && Bounded(s, b)
    requires Apply(cfg, s, step).finished == s.finished && s.row.value.windowEnd.value + cfg.lag <= s.now
    ensures IsOpen(Apply(cfg, s, step)) && Bounded(Apply(cfg, s, step), b - |Advances(s, step)|)
  {
    StepWindow(cfg, s, step);
    if step.Fetch? {
      FetchBounded(cfg, s, step.w, step.page, b);
    } else if Advances(s, step) != [] {
      AdvanceBounded(cfg, s, step.w, b);
    } else {
      QuietStepBounded(cfg, s, step, b);
    }
  }

  /** Only a fetch puts a page in hand. */
  lemma HeldBefore(cfg: Config, s: State, step: Step, w: nat)
    requires ChainInv(s) && Enabled(cfg, s, step) && !step.Fetch? && Holds(Apply(cfg, s, step), w)
    ensures Holds(s, w) && Apply(cfg, s, step).workers[w].phase.page == s.workers[w].phase.page
  {
    assert w in s.workers ==> Fits(s, s.workers[w]);
  }

  lemma QuietStepBounded(cfg: Config, s: State, step: Step, b: int)
    requires ChainInv(s) && Enabled(cfg, s, step) && IsOpen(s) && IsOpen(Apply(cfg, s, step)) && Bounded(s, b)
    requires Apply(cfg, s, step).finished == s.finished && s.row.value.windowEnd.value + cfg.lag <= s.now
    requires !step.Fetch? && Advances(s, step) == []
    ensures Bounded(Apply(cfg, s, step), b)
  {
    var s2 := Apply(cfg, s, step);
    StepWindow(cfg, s, step);
    CursorAfter(cfg, s, step);
    StepOnlyMovesOut(cfg, s, step, OpenWindow(s.row.value));
    forall w | w in s2.workers && Holds(s2, w)
      ensures w in s.workers && Holds(s, w) && s2.workers[w].phase.page == s.workers[w].phase.page
    {
      HeldBefore(cfg, s, step, w);
    }
    QuietBounded(s, s2, b);
  }

  /** The pages whose ends a run stores as cursors, in order. */
  ghost function Pages(cfg: Config, s: State, steps: seq<Step>): seq<seq<Entry>>
    requires Run(Chained(cfg, true), s, steps).Some?
    decreases |steps|
  {
    if steps == [] then []
    else
      var page, rest := Advances(s, steps[0]), Pages(cfg, Apply(cfg, s, steps[0]), steps[1..]);
      if page == [] then rest else [page] + rest
  }

  ghost function Rows(pages: seq<seq<Entry>>): nat {
    if pages == [] then 0 else |pages[0]| + Rows(pages[1..])
  }

  /** Each page ends beyond the one before, the first beyond the cursor. */
  ghost predicate Ascends(cursor: Option<Position>, pages: seq<seq<Entry>>)
    decreases |pages|
  {
    pages == [] || (pages[0] != [] && Beyond(cursor, LastPosition(pages[0])) && Ascends(Some(LastPosition(pages[0])), pages[1..]))
  }

  /** A run of single workers that leaves the window open, once the commit delay after its end has passed. */
  ghost predicate Settling(cfg: Config, s: State, steps: seq<Step>) {
    && ChainInv(s) && IsOpen(s) && s.row.value.windowEnd.value + cfg.lag <= s.now
    && Run(Chained(cfg, true), s, steps).Some? && Run(Chained(cfg, true), s, steps).value.finished == s.finished
  }

  lemma SettlingNext(cfg: Config, s: State, steps: seq<Step>)
    requires Settling(cfg, s, steps) && steps != []
    ensures Apply(cfg, s, steps[0]).finished == s.finished && SameWindow(s, Apply(cfg, s, steps[0]))
    ensures Settling(cfg, Apply(cfg, s, steps[0]), steps[1..])
  {
    var next := Apply(cfg, s, steps[0]);
    StepKeepsChain(cfg, s, steps[0]);
    FinishedGrowsOnce(cfg, s, steps[0]);
    RunWithin(Chained(cfg, true), Machine(cfg), next, steps[1..]);
    FinishedGrows(cfg, next, steps[1..]);
    StepWindow(cfg, s, steps[0]);
    StepOnlyMovesOut(cfg, s, steps[0], OpenWindow(s.row.value));
  }

  lemma {:induction false} RunBounded(cfg: Config, s: State, steps: seq<Step>, b: int)
    requires Settling(cfg, s, steps) && Bounded(s, b)
    ensures
      var end := Run(Chained(cfg, true), s, steps).value;
      IsOpen(end) && Rows(Pages(cfg, s, steps)) + RowsLeft(end, CursorOf(end.row.value)) <= b
    decreases |steps|
  {
    if steps != [] {
      SettlingNext(cfg, s, steps);
      StepBounded(cfg, s, steps[0], b);
      RunBounded(cfg, Apply(cfg, s, steps[0]), steps[1..], b - |Advances(s, steps[0])|);
      RowsOf(cfg, s, steps);
    }
  }

  lemma RowsOf(cfg: Config, s: State, steps: seq<Step>)
    requires Run(Chained(cfg, true), s, steps).Some? && steps != []
    ensures Rows(Pages(cfg, s, steps))
         == |Advances(s, steps[0])| + Rows(Pages(cfg, Apply(cfg, s, steps[0]), steps[1..]))
  {
    var page, rest := Advances(s, steps[0]), Pages(cfg, Apply(cfg, s, steps[0]), steps[1..]);
    assert ([page] + rest)[1..] == rest;
  }

  lemma {:induction false} RunAscends(cfg: Config, s: State, steps: seq<Step>)
    requires Settling(cfg, s, steps)
    ensures Ascends(CursorOf(s.row.value), Pages(cfg, s, steps))
    decreases |steps|
  {
    if steps != [] {
      SettlingNext(cfg, s, steps);
      CursorAfter(cfg, s, steps[0]);
      RunAscends(cfg, Apply(cfg, s, steps[0]), steps[1..]);
      var page, rest := Advances(s, steps[0]), Pages(cfg, Apply(cfg, s, steps[0]), steps[1..]);
      if page != [] {
        assert Fits(s, s.workers[steps[0].w]);
        assert ([page] + rest)[1..] == rest;
      }
    }
  }

  /**
   * Every chain of continuations ends. Once the commit delay after the window's end has passed, the full pages
   * that single workers fetch from the stored cursor and then conclude, across reclaims, crashes and rewrites of
   * the source, hold no more rows than were left beyond the cursor, plus those of a page already in hand; and
   * each page ends strictly beyond the one before.
   */
  lemma ContinuationEnds(cfg: Config, s: State, steps: seq<Step>, held: nat)
    requires ChainedReachable(cfg, true, s) && IsOpen(s) && s.row.value.windowEnd.value + cfg.lag <= s.now
    requires forall w :: w in s.workers && Holds(s, w) ==> |s.workers[w].phase.page| <= held
    requires Run(Chained(cfg, true), s, steps).Some? && Run(Chained(cfg, true), s, steps).value.finished == s.finished
    ensures IsOpen(Run(Chained(cfg, true), s, steps).value)
    ensures
      var end := Run(Chained(cfg, true), s, steps).value;
      Rows(Pages(cfg, s, steps)) + RowsLeft(end, CursorOf(end.row.value)) <= RowsLeft(s, CursorOf(s.row.value)) + held
    ensures Ascends(CursorOf(s.row.value), Pages(cfg, s, steps))
  {
    ReachableChain(cfg, s);
    var b := RowsLeft(s, CursorOf(s.row.value)) + held;
    forall w | w in s.workers && Holds(s, w) ensures HeldWithin(s, w, b) {
      assert Fits(s, s.workers[w]);
      LeftBeyond(s.table, OpenWindow(s.row.value), CursorOf(s.row.value), LastPosition(s.workers[w].phase.page));
    }
    RunBounded(cfg, s, steps, b);
    RunAscends(cfg, s, steps);
  }

  /** So there are at most as many continuations as batches of rows. */
  lemma {:induction false} PagesCount(pages: seq<seq<Entry>>, batch: nat)
    requires forall i :: 0 <= i < |pages| ==> |pages[i]| >= batch
    ensures |pages| * batch <= Rows(pages)
  {
    if pages != [] {
      PagesCount(pages[1..], batch);
      OneMore(|pages| - 1, batch);
    }
  }

  lemma LeftBeyond(t: Table, w: Window, cursor: Option<Position>, p: Position)
    requires Beyond(cursor, p)
    ensures |Left(t, w, Some(p))| <= |Left(t, w, cursor)|
  {
    forall k | k in Left(t, w, Some(p)) ensures k in Left(t, w, cursor) {
      if cursor.Some? {
        BeforeIsStrictOrder(cursor.value, p, PositionOf(k, t[k]));
      }
    }
    Subset(Left(t, w, Some(p)), Left(t, w, cursor));
  }
}
