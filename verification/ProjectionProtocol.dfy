/**
 * The company-context projection protocol for one scope (workflows/company_context_documents.py):
 * coordinators claim windows, workers page, project and move the checkpoint, while the source table
 * is rewritten. Any number of workers may run under any token, duplicate each other, stall or die
 * between any two statements.
 */
module ProjectionProtocol {
  import opened Common
  import opened KeysetPaging
  import opened ProjectionCheckpoint
  import opened Runs

  /**
   * `lag`: a row version becomes visible strictly less than `lag` after its stamp.
   * `overlap`: the least watermark overlap any claim uses.
   * `reload`: the scope renders a document from rows loaded at projection time; otherwise it renders
   * the row of the page (scopes google_doc and attio_meeting).
   * `group`: the document a row belongs to (a thread, a channel day, or the row itself).
   */
  datatype Config = Config(lag: nat, overlap: nat, reload: bool, group: Key -> nat)

  datatype Phase =
    | Started
    | Owned(window: Window, cursor: Option<Position>)
    | Paged(window: Window, cursor: Option<Position>, page: seq<Entry>, done: nat)

  datatype Worker = Worker(token: Token, batch: nat, phase: Phase)

  /**
   * `docs[g]` is the source content document `g` was last rendered from; `projected` is the set of row
   * versions rendered so far. `issued` remembers the window each token was issued for, `base` the start
   * of the very first window and `finished` the number of finished windows.
   */
  datatype State = State(
    now: Time,
    table: Table,
    nextVersion: nat,
    row: Option<Checkpoint>,
    docs: map<nat, Table>,
    projected: set<Entry>,
    workers: map<nat, Worker>,
    issued: map<Token, Window>,
    base: Option<Time>,
    finished: nat)

  datatype Step =
    | Tick(to: Time)
    | Write(key: Key, stamp: Time, eligible: bool)
    | Delete(key: Key)
    | ClaimScope(req: ClaimRequest)
    | Start(w: nat, token: Token, batch: nat)
    | Read(w: nat)
    | Fetch(w: nat, page: seq<Entry>)
    | Project(w: nat)
    | Conclude(w: nat)
    | Crash(w: nat)

  function Init(now: Time): State {
    State(now, map[], 0, None, map[], {}, map[], map[], None, 0)
  }

  function Drop(s: State, w: nat): State { s.(workers := s.workers - {w}) }

  function SetPhase(s: State, w: nat, p: Phase): State
    requires w in s.workers
  {
    s.(workers := s.workers[w := s.workers[w].(phase := p)])
  }

  function ApplyClaim(s: State, req: ClaimRequest): State {
    match Claim(s.row, req, s.now)
    case Raised => s
    case Busy => s
    case Claimed(c) =>
      s.(row := Some(c),
         issued := s.issued[req.token := Window(c.windowStart, c.windowEnd.value)],
         base := if s.row.None? then c.windowStart else s.base)
  }

  /** The first half of `_run_scope_batch`: skip, or take the window and cursor. */
  function ApplyRead(s: State, w: nat): State
    requires w in s.workers
  {
    var owned := ReadOwned(s.row, s.workers[w].token, s.now);
    if owned.None? || owned.value.windowEnd.None? then Drop(s, w)
    else SetPhase(s, w, Owned(Window(owned.value.windowStart, owned.value.windowEnd.value), CursorOf(owned.value)))
  }

  /** One document of `_project_scope_page`: load, render and upsert as one step. */
  function ApplyProject(cfg: Config, s: State, w: nat): State
    requires w in s.workers && s.workers[w].phase.Paged?
    requires s.workers[w].phase.done < |s.workers[w].phase.page|
  {
    var p := s.workers[w].phase;
    var e := p.page[p.done];
    var g := cfg.group(e.key);
    var before := if g in s.docs then s.docs[g] else map[];
    SetPhase(s.(projected := s.projected + {e},
                docs := s.docs[g := if cfg.reload then s.table else before[e.key := e.row]]),
             w, p.(done := p.done + 1))
  }

  /** The last part of `_run_scope_batch`: a short page finishes the window, a full one moves the cursor. */
  function ApplyConclude(s: State, w: nat): State
    requires w in s.workers && s.workers[w].phase.Paged?
  {
    var worker := s.workers[w];
    var page := worker.phase.page;
    if |page| < worker.batch then
      Drop(s.(row := Finish(s.row, worker.token),
              finished := if OwnedBy(s.row, worker.token) then s.finished + 1 else s.finished), w)
    else if page == [] || page[|page| - 1].key == 0 then Drop(s, w)
    else Drop(s.(row := Advance(s.row, worker.token, LastPosition(page), s.now)), w)
  }

  /** Whether the environment may take this step. */
  predicate Enabled(cfg: Config, s: State, step: Step) {
    match step
    case Tick(to) => to >= s.now
    case Write(_, stamp, _) => stamp <= s.now < stamp + cfg.lag
    case Delete(k) => k in s.table
    case ClaimScope(req) => req.token !in s.issued && req.hostNow <= s.now && req.overlap >= cfg.overlap
    case Start(w, _, batch) => w !in s.workers && batch > 0
    case Read(w) => w in s.workers && s.workers[w].phase.Started?
    case Fetch(w, page) =>
      && w in s.workers && s.workers[w].phase.Owned?
      && IsPage(s.table, s.workers[w].phase.window, s.workers[w].phase.cursor, s.workers[w].batch, page)
    case Project(w) =>
      w in s.workers && s.workers[w].phase.Paged? && s.workers[w].phase.done < |s.workers[w].phase.page|
    case Conclude(w) =>
      w in s.workers && s.workers[w].phase.Paged? && s.workers[w].phase.done == |s.workers[w].phase.page|
    case Crash(w) => w in s.workers
  }

  function Apply(cfg: Config, s: State, step: Step): State
    requires Enabled(cfg, s, step)
  {
    match step
    case Tick(to) => s.(now := to)
    case Write(k, stamp, eligible) =>
      s.(table := s.table[k := Row(stamp, s.nextVersion, eligible)], nextVersion := s.nextVersion + 1)
    case Delete(k) => s.(table := s.table - {k})
    case ClaimScope(req) => ApplyClaim(s, req)
    case Start(w, token, batch) => s.(workers := s.workers[w := Worker(token, batch, Started)])
    case Read(w) => ApplyRead(s, w)
    case Fetch(w, page) =>
      SetPhase(s, w, Paged(s.workers[w].phase.window, s.workers[w].phase.cursor, page, 0))
    case Project(w) => ApplyProject(cfg, s, w)
    case Conclude(w) => ApplyConclude(s, w)
    case Crash(w) => Drop(s, w)
  }

  /** The machine whose runs are all interleavings. */
  function Machine(cfg: Config): (State, Step) -> Option<State> {
    (s, step) => if Enabled(cfg, s, step) then Some(Apply(cfg, s, step)) else None
  }

  // ---- What the protocol keeps -------------------------------------------------------------

  /** The current version of row `k` is in its document. */
  predicate Covered(cfg: Config, s: State, k: Key)
    requires k in s.table
  {
    if cfg.reload then
      var g := cfg.group(k);
      g in s.docs && k in s.docs[g] && s.docs[g][k] == s.table[k]
    else
      Entry(k, s.table[k]) in s.projected
  }

  /** No version stamped like this can become visible at or after `end`. */
  predicate Settled(cfg: Config, r: Row, end: Time) { r.stamp + cfg.lag <= end }

  /** The row is stamped early enough in window `w` for the window to answer for it. */
  predicate Due(cfg: Config, s: State, w: Window, k: Key)
    requires k in s.table
  {
    InWindow(s.table[k], w) && Settled(cfg, s.table[k], w.end)
  }

  /** Every due row at or before the cursor is covered. */
  ghost predicate CoveredTo(cfg: Config, s: State, w: Window, cursor: Option<Position>) {
    forall k :: k in s.table && Due(cfg, s, w, k) && !Beyond(cursor, PositionOf(k, s.table[k])) ==> Covered(cfg, s, k)
  }

  /** Due rows of a page are unchanged since the fetch, and the page misses none it should hold. */
  ghost predicate PageHolds(cfg: Config, s: State, w: Window, cursor: Option<Position>, batch: nat, page: seq<Entry>) {
    && (forall e :: e in page && e.key in s.table && Due(cfg, s, w, e.key) ==> s.table[e.key] == e.row)
    && (forall k :: k in s.table && Due(cfg, s, w, k) && Beyond(cursor, PositionOf(k, s.table[k])) ==>
          Entry(k, s.table[k]) in page
          || (|page| == batch && page != [] && Before(LastPosition(page), PositionOf(k, s.table[k]))))
  }

  ghost predicate ProjectedTo(cfg: Config, s: State, w: Window, page: seq<Entry>, done: nat) {
    forall j :: 0 <= j < done && j < |page| && page[j].key in s.table && Due(cfg, s, w, page[j].key) ==>
      Covered(cfg, s, page[j].key)
  }

  ghost predicate WorkerInv(cfg: Config, s: State, worker: Worker) {
    match worker.phase
    case Started => true
    case Owned(w, cursor) =>
      worker.token in s.issued && s.issued[worker.token] == w && CoveredTo(cfg, s, w, cursor)
    case Paged(w, cursor, page, done) =>
      && worker.token in s.issued && s.issued[worker.token] == w && CoveredTo(cfg, s, w, cursor)
      && PageHolds(cfg, s, w, cursor, worker.batch, page)
      && ProjectedTo(cfg, s, w, page, done)
  }

  function OpenWindow(c: Checkpoint): Window
    requires c.windowEnd.Some?
  {
    Window(c.windowStart, c.windowEnd.value)
  }

  /** A lease token is held exactly while a window is open, and the window is the one it was issued for. */
  ghost predicate RowInv(cfg: Config, s: State) {
    match s.row
    case None => s.finished == 0
    case Some(c) =>
      && (c.windowEnd.Some? <==> c.leaseToken.Some?)
      && (c.windowEnd.None? ==> s.finished > 0)
      && (s.finished > 0 ==> c.watermark.Some? && c.watermark.value <= s.now)
      && (c.leaseToken.Some? ==> c.leaseToken.value in s.issued && s.issued[c.leaseToken.value] == OpenWindow(c))
      && (c.windowEnd.Some? ==>
            if s.finished > 0 then c.windowStart.Some? && c.windowStart.value + cfg.lag <= c.watermark.value
            else c.windowStart == s.base)
  }

  ghost predicate IssuedInv(s: State) {
    forall t :: t in s.issued ==> s.issued[t].end <= s.now
  }

  ghost predicate CursorInv(cfg: Config, s: State) {
    s.row.Some? && s.row.value.windowEnd.Some? ==>
      CoveredTo(cfg, s, OpenWindow(s.row.value), CursorOf(s.row.value))
  }

  /** Nothing stamped between the start of the first window and `watermark - lag` is missing. */
  ghost predicate FrontierInv(cfg: Config, s: State) {
    s.finished > 0 && s.row.Some? && s.row.value.watermark.Some? ==>
      Frontier(cfg, s, s.row.value.watermark.value - cfg.lag)
  }

  ghost predicate Frontier(cfg: Config, s: State, upTo: Time) {
    forall k :: k in s.table && InWindow(s.table[k], Window(s.base, upTo)) ==> Covered(cfg, s, k)
  }

  ghost predicate WorkersInv(cfg: Config, s: State) {
    forall w :: w in s.workers ==> WorkerInv(cfg, s, s.workers[w])
  }

  ghost predicate Inv(cfg: Config, s: State) {
    RowInv(cfg, s) && IssuedInv(s) && CursorInv(cfg, s) && FrontierInv(cfg, s) && WorkersInv(cfg, s)
  }

  // ---- Coverage survives every change of the source and of the documents ---------------------

  /** `s2` has the same or later coverage: settled rows keep their version and their coverage. */
  ghost predicate Grows(cfg: Config, s: State, s2: State) {
    && s2.now >= s.now
    && (forall k :: k in s2.table && s2.table[k].stamp + cfg.lag <= s.now ==>
          k in s.table && s.table[k] == s2.table[k] && (Covered(cfg, s, k) ==> Covered(cfg, s2, k)))
  }

  lemma CoveredToGrows(cfg: Config, s: State, s2: State, w: Window, cursor: Option<Position>)
    requires Grows(cfg, s, s2) && w.end <= s.now && CoveredTo(cfg, s, w, cursor)
    ensures CoveredTo(cfg, s2, w, cursor)
  {
    forall k | k in s2.table && Due(cfg, s2, w, k) && !Beyond(cursor, PositionOf(k, s2.table[k]))
      ensures Covered(cfg, s2, k)
    {
      assert k in s.table && s.table[k] == s2.table[k];
      assert Due(cfg, s, w, k);
    }
  }

  lemma PageHoldsGrows(cfg: Config, s: State, s2: State, w: Window, cursor: Option<Position>, batch: nat, page: seq<Entry>)
    requires Grows(cfg, s, s2) && w.end <= s.now && PageHolds(cfg, s, w, cursor, batch, page)
    ensures PageHolds(cfg, s2, w, cursor, batch, page)
  {
    forall k | k in s2.table && Due(cfg, s2, w, k)
      ensures k in s.table && s.table[k] == s2.table[k] && Due(cfg, s, w, k)
    {}
  }

  lemma ProjectedToGrows(cfg: Config, s: State, s2: State, w: Window, page: seq<Entry>, done: nat)
    requires Grows(cfg, s, s2) && w.end <= s.now && ProjectedTo(cfg, s, w, page, done)
    ensures ProjectedTo(cfg, s2, w, page, done)
  {
    forall j | 0 <= j < done && j < |page| && page[j].key in s2.table && Due(cfg, s2, w, page[j].key)
      ensures Covered(cfg, s2, page[j].key)
    {
      var k := page[j].key;
      assert k in s.table && s.table[k] == s2.table[k];
      assert Due(cfg, s, w, k);
    }
  }

  lemma WorkerGrows(cfg: Config, s: State, s2: State, worker: Worker)
    requires Grows(cfg, s, s2) && IssuedInv(s) && WorkerInv(cfg, s, worker)
    requires forall t :: t in s.issued ==> t in s2.issued && s2.issued[t] == s.issued[t]
    ensures WorkerInv(cfg, s2, worker)
  {
    match worker.phase
    case Started =>
    case Owned(w, cursor) => CoveredToGrows(cfg, s, s2, w, cursor);
    case Paged(w, cursor, page, done) =>
      CoveredToGrows(cfg, s, s2, w, cursor);
      PageHoldsGrows(cfg, s, s2, w, cursor, worker.batch, page);
      ProjectedToGrows(cfg, s, s2, w, page, done);
  }

  /** Steps that touch neither the checkpoint nor the tokens keep the invariant when coverage grows. */
  lemma EnvironmentKeeps(cfg: Config, s: State, s2: State)
    requires Inv(cfg, s) && Grows(cfg, s, s2)
    requires s2.row == s.row && s2.issued == s.issued && s2.base == s.base && s2.finished == s.finished
    requires forall w :: w in s2.workers ==> w in s.workers && s2.workers[w] == s.workers[w]
    ensures Inv(cfg, s2)
  {
    forall w | w in s2.workers ensures WorkerInv(cfg, s2, s2.workers[w]) {
      WorkerGrows(cfg, s, s2, s.workers[w]);
    }
    if s.row.Some? && s.row.value.windowEnd.Some? {
      CoveredToGrows(cfg, s, s2, OpenWindow(s.row.value), CursorOf(s.row.value));
    }
    if s.finished > 0 {
      var upTo := s.row.value.watermark.value - cfg.lag;
      forall k | k in s2.table && InWindow(s2.table[k], Window(s.base, upTo))
        ensures Covered(cfg, s2, k)
      {
        assert k in s.table && s.table[k] == s2.table[k];
      }
    }
  }

  lemma SourceKeeps(cfg: Config, s: State, step: Step)
    requires Inv(cfg, s) && Enabled(cfg, s, step)
    requires step.Tick? || step.Write? || step.Delete? || step.Crash?
    ensures Inv(cfg, Apply(cfg, s, step))
  {
    EnvironmentKeeps(cfg, s, Apply(cfg, s, step));
  }

  lemma ClaimKeeps(cfg: Config, s: State, req: ClaimRequest)
    requires cfg.lag <= cfg.overlap
    requires Inv(cfg, s) && Enabled(cfg, s, ClaimScope(req))
    ensures Inv(cfg, ApplyClaim(s, req))
  {
    var s2 := ApplyClaim(s, req);
    if Claim(s.row, req, s.now).Claimed? {
      assert Grows(cfg, s, s2);
      forall w | w in s2.workers ensures WorkerInv(cfg, s2, s2.workers[w]) {
        WorkerGrows(cfg, s, s2, s.workers[w]);
      }
    }
  }

  lemma StartKeeps(cfg: Config, s: State, w: nat, token: Token, batch: nat)
    requires Inv(cfg, s) && Enabled(cfg, s, Start(w, token, batch))
    ensures Inv(cfg, Apply(cfg, s, Start(w, token, batch)))
  {
    WorkerSteps(cfg, s, Apply(cfg, s, Start(w, token, batch)), w);
  }

  /** A step that only moves worker `w` keeps the invariant once `w` itself is accounted for. */
  lemma WorkerSteps(cfg: Config, s: State, s2: State, w: nat)
    requires Inv(cfg, s) && Grows(cfg, s, s2)
    requires s2.row == s.row && s2.issued == s.issued && s2.base == s.base && s2.finished == s.finished
    requires forall v :: v in s2.workers && v != w ==> v in s.workers && s2.workers[v] == s.workers[v]
    requires w in s2.workers ==> WorkerInv(cfg, s2, s2.workers[w])
    ensures Inv(cfg, s2)
  {
    var rest := Drop(s2, w);
    EnvironmentKeeps(cfg, s, rest);
    forall v | v in s2.workers ensures WorkerInv(cfg, s2, s2.workers[v]) {
      if v != w {
        assert WorkerInv(cfg, rest, rest.workers[v]);
        WorkerGrows(cfg, rest, s2, s2.workers[v]);
      }
    }
    if s2.row.Some? && s2.row.value.windowEnd.Some? {
      CoveredToGrows(cfg, rest, s2, OpenWindow(s2.row.value), CursorOf(s2.row.value));
    }
  }

  lemma ReadKeeps(cfg: Config, s: State, w: nat)
    requires Inv(cfg, s) && Enabled(cfg, s, Read(w))
    ensures Inv(cfg, ApplyRead(s, w))
  {
    var s2 := ApplyRead(s, w);
    if w in s2.workers {
      var c := s.row.value;
      CoveredToGrows(cfg, s, s2, OpenWindow(c), CursorOf(c));
    }
    WorkerSteps(cfg, s, s2, w);
  }

  lemma FetchKeeps(cfg: Config, s: State, w: nat, page: seq<Entry>)
    requires Inv(cfg, s) && Enabled(cfg, s, Fetch(w, page))
    ensures Inv(cfg, Apply(cfg, s, Fetch(w, page)))
  {
    var s2 := Apply(cfg, s, Fetch(w, page));
    var p := s.workers[w].phase;
    assert WorkerInv(cfg, s, s.workers[w]);
    CoveredToGrows(cfg, s, s2, p.window, p.cursor);
    assert PageHolds(cfg, s2, p.window, p.cursor, s.workers[w].batch, page);
    WorkerSteps(cfg, s, s2, w);
  }

  /** Rendering one document never takes coverage away from a row whose version is unchanged. */
  lemma ProjectGrows(cfg: Config, s: State, w: nat)
    requires Enabled(cfg, s, Project(w))
    ensures Grows(cfg, s, ApplyProject(cfg, s, w))
  {}

  lemma ProjectKeeps(cfg: Config, s: State, w: nat)
    requires Inv(cfg, s) && Enabled(cfg, s, Project(w))
    ensures Inv(cfg, ApplyProject(cfg, s, w))
  {
    var s2 := ApplyProject(cfg, s, w);
    var p := s.workers[w].phase;
    var worker := s.workers[w];
    ProjectGrows(cfg, s, w);
    assert WorkerInv(cfg, s, worker);
    WorkerGrows(cfg, s, s2, worker);
    var e := p.page[p.done];
    assert e in p.page;
    WorkerSteps(cfg, s, s2, w);
  }

  /** All due rows of the window up to the end of a fully projected page are covered. */
  lemma PageCovers(cfg: Config, s: State, worker: Worker, k: Key)
    requires WorkerInv(cfg, s, worker) && worker.phase.Paged?
    requires worker.phase.done == |worker.phase.page|
    requires k in s.table && Due(cfg, s, worker.phase.window, k)
    requires var page := worker.phase.page;
      |page| < worker.batch || (page != [] && !Before(LastPosition(page), PositionOf(k, s.table[k])))
    ensures Covered(cfg, s, k)
  {
    var p := worker.phase;
    if Beyond(p.cursor, PositionOf(k, s.table[k])) {
      assert Entry(k, s.table[k]) in p.page;
      var j :| 0 <= j < |p.page| && p.page[j] == Entry(k, s.table[k]);
      assert p.page[j].key == k;
    }
  }

  lemma FinishKeeps(cfg: Config, s: State, w: nat)
    requires cfg.lag <= cfg.overlap
    requires Inv(cfg, s) && Enabled(cfg, s, Conclude(w))
    requires |s.workers[w].phase.page| < s.workers[w].batch && OwnedBy(s.row, s.workers[w].token)
    ensures Inv(cfg, ApplyConclude(s, w))
  {
    var s2 := ApplyConclude(s, w);
    var worker := s.workers[w];
    assert WorkerInv(cfg, s, worker);
    var window := worker.phase.window;
    var c := s.row.value;
    assert window == OpenWindow(c);
    var upTo := window.end - cfg.lag;
    forall k | k in s2.table && InWindow(s2.table[k], Window(s.base, upTo))
      ensures Covered(cfg, s2, k)
    {
      if After(window.start, s.table[k].stamp) {
        assert Due(cfg, s, window, k);
        PageCovers(cfg, s, worker, k);
      } else {
        assert s.finished > 0;
        assert InWindow(s.table[k], Window(s.base, c.watermark.value - cfg.lag));
      }
    }
    assert Grows(cfg, s, s2);
    forall v | v in s2.workers ensures WorkerInv(cfg, s2, s2.workers[v]) {
      WorkerGrows(cfg, s, s2, s.workers[v]);
    }
  }

  lemma AdvanceKeeps(cfg: Config, s: State, w: nat)
    requires Inv(cfg, s) && Enabled(cfg, s, Conclude(w))
    requires s.workers[w].phase.page != []
    requires |s.workers[w].phase.page| >= s.workers[w].batch && OwnedBy(s.row, s.workers[w].token)
    ensures Inv(cfg, ApplyConclude(s, w))
  {
    var s2 := ApplyConclude(s, w);
    var worker := s.workers[w];
    assert WorkerInv(cfg, s, worker);
    var window := worker.phase.window;
    assert window == OpenWindow(s.row.value);
    var last := LastPosition(worker.phase.page);
    assert CoveredTo(cfg, s2, window, Some(last)) by {
      forall k | k in s2.table && Due(cfg, s2, window, k) && !Before(last, PositionOf(k, s2.table[k]))
        ensures Covered(cfg, s2, k)
      {
        assert Due(cfg, s, window, k);
        PageCovers(cfg, s, worker, k);
      }
    }
    assert Grows(cfg, s, s2);
    if s2.row == s.row {
      CoveredToGrows(cfg, s, s2, window, CursorOf(s.row.value));
    }
    forall v | v in s2.workers ensures WorkerInv(cfg, s2, s2.workers[v]) {
      WorkerGrows(cfg, s, s2, s.workers[v]);
    }
    if s.finished > 0 {
      var upTo := s.row.value.watermark.value - cfg.lag;
      assert Frontier(cfg, s, upTo);
      assert Frontier(cfg, s2, upTo);
    }
  }

  lemma ConcludeKeeps(cfg: Config, s: State, w: nat)
    requires cfg.lag <= cfg.overlap
    requires Inv(cfg, s) && Enabled(cfg, s, Conclude(w))
    ensures Inv(cfg, ApplyConclude(s, w))
  {
    var worker := s.workers[w];
    if OwnedBy(s.row, worker.token) && |worker.phase.page| < worker.batch {
      FinishKeeps(cfg, s, w);
    } else if OwnedBy(s.row, worker.token) && worker.phase.page != [] {
      AdvanceKeeps(cfg, s, w);
    } else {
      EnvironmentKeeps(cfg, s, ApplyConclude(s, w));
    }
  }

  lemma StepKeeps(cfg: Config, s: State, step: Step)
    requires cfg.lag <= cfg.overlap
    requires Inv(cfg, s) && Enabled(cfg, s, step)
    ensures Inv(cfg, Apply(cfg, s, step))
  {
    match step
    case Tick(_) => SourceKeeps(cfg, s, step);
    case Write(_, _, _) => SourceKeeps(cfg, s, step);
    case Delete(_) => SourceKeeps(cfg, s, step);
    case Crash(_) => SourceKeeps(cfg, s, step);
    case ClaimScope(req) => ClaimKeeps(cfg, s, req);
    case Start(w, token, batch) => StartKeeps(cfg, s, w, token, batch);
    case Read(w) => ReadKeeps(cfg, s, w);
    case Fetch(w, page) => FetchKeeps(cfg, s, w, page);
    case Project(w) => ProjectKeeps(cfg, s, w);
    case Conclude(w) => ConcludeKeeps(cfg, s, w);
  }

  lemma RunKeeps(cfg: Config, s: State, steps: seq<Step>)
    requires cfg.lag <= cfg.overlap && Inv(cfg, s)
    requires Run(Machine(cfg), s, steps).Some?
    ensures Inv(cfg, Run(Machine(cfg), s, steps).value)
  {
    var inv := (s: State) => Inv(cfg, s);
    forall s, step | inv(s) && Enabled(cfg, s, step) ensures inv(Apply(cfg, s, step)) {
      StepKeeps(cfg, s, step);
    }
    Runs.RunKeeps(Machine(cfg), inv, s, steps);
  }
}
