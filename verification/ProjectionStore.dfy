/**
 * The projection workflow's own code over the database rows of one scope
 * (workflows/company_context_documents.py, `_batch_size`, `_claim_scope`, `_run_scope_batch`).
 * An uninterrupted call is exactly a sequence of protocol steps.
 */
module ProjectionStore {
  import opened Common
  import opened KeysetPaging
  import opened ProjectionCheckpoint
  import opened ProjectionProtocol
  import opened Runs

  const DEFAULT_BATCH_SIZE := 50
  const MAX_BATCH_SIZE := 250

  /** `_batch_size`: a missing or non-positive setting falls back to the default, a large one is capped. */
  function BatchSize(configured: Option<int>): (size: nat)
    ensures 1 <= size <= MAX_BATCH_SIZE
    ensures configured.Some? && 1 <= configured.value <= MAX_BATCH_SIZE ==> size == configured.value
    ensures configured.Some? && configured.value > MAX_BATCH_SIZE ==> size == MAX_BATCH_SIZE
    ensures configured.None? || configured.value <= 0 ==> size == DEFAULT_BATCH_SIZE
  {
    var positive := if configured.Some? && configured.value > 0 then configured.value else DEFAULT_BATCH_SIZE;
    Min(positive, MAX_BATCH_SIZE)
  }

  /** How one child run ended; a full page names the cursor of its continuation. */
  datatype Outcome = LeaseNotOwned | NoActiveWindow | MissingCursor | WindowFinished | Continues(cursor: Position)

  function Repeat(n: nat): seq<Step> { seq(n, i => Project(0)) }

  /** The protocol steps of one child run that fetched `page`. */
  function BatchSteps(token: Token, batch: nat, page: seq<Entry>, outcome: Outcome): seq<Step> {
    if outcome.LeaseNotOwned? || outcome.NoActiveWindow? then [Start(0, token, batch), Read(0)]
    else [Start(0, token, batch), Read(0), Fetch(0, page)] + Repeat(|page|) + [Conclude(0)]
  }

  class Scope {
    var table: Table
    var row: Option<Checkpoint>
    var docs: map<nat, Table>
    ghost var projected: set<Entry>
    ghost var nextVersion: nat
    ghost var issued: map<Token, Window>
    ghost var base: Option<Time>
    ghost var finished: nat

    constructor ()
      ensures forall now :: View(now) == Init(now)
    {
      table, row, docs := map[], None, map[];
      projected, nextVersion, issued, base, finished := {}, 0, map[], None, 0;
    }

    ghost function View(now: Time): State
      reads this
    {
      State(now, table, nextVersion, row, docs, projected, map[], issued, base, finished)
    }

    /** `_claim_scope` */
    method ClaimScope(ghost cfg: Config, req: ClaimRequest, now: Time) returns (claimed: Option<Checkpoint>)
      requires Enabled(cfg, View(now), Step.ClaimScope(req))
      modifies this
      ensures View(now) == Apply(cfg, old(View(now)), Step.ClaimScope(req))
      ensures claimed.Some? <==> Claim(old(row), req, now).Claimed?
      ensures claimed.Some? ==> row == claimed
    {
      match Claim(row, req, now) {
        case Raised => claimed := None;
        case Busy => claimed := None;
        case Claimed(c) =>
          if row.None? {
            base := c.windowStart;
          }
          row := Some(c);
          issued := issued[req.token := Window(c.windowStart, c.windowEnd.value)];
          claimed := row;
      }
    }

    /** `_project_scope_page`, continuing the run `steps` that holds `page`. */
    method ProjectPage(cfg: Config, page: seq<Entry>, now: Time,
                       ghost before: State, ghost steps: seq<Step>, ghost held: State)
      returns (ghost s: State)
      requires Run(Machine(cfg), before, steps) == Some(held) && Drop(held, 0) == View(now)
      requires held.workers.Keys == {0} && held.workers[0].phase.Paged?
      requires held.workers[0].phase.page == page && held.workers[0].phase.done == 0
      modifies this`docs, this`projected
      ensures Run(Machine(cfg), before, steps + Repeat(|page|)) == Some(s) && Drop(s, 0) == View(now)
      ensures s.workers == map[0 := held.workers[0].(phase := held.workers[0].phase.(done := |page|))]
    {
      s := held;
      assert steps + Repeat(0) == steps;
      var done := 0;
      while done < |page|
        invariant 0 <= done <= |page|
        invariant s.workers == map[0 := held.workers[0].(phase := held.workers[0].phase.(done := done))]
        invariant Drop(s, 0) == View(now)
        invariant Run(Machine(cfg), before, steps + Repeat(done)) == Some(s)
      {
        var e := page[done];
        var g := cfg.group(e.key);
        ProjectsNext(cfg, before, steps, done, s, held.workers[0]);
        s := ApplyProject(cfg, s, 0);
        projected := projected + {e};
        var current := if g in docs then docs[g] else map[];
        docs := docs[g := if cfg.reload then table else current[e.key := e.row]];
        done := done + 1;
      }
    }

    /** The end of `_run_scope_batch`, continuing the run `steps` that has projected all of `page`. */
    method ConcludeBatch(ghost cfg: Config, token: Token, batch: nat, page: seq<Entry>, now: Time,
                         ghost before: State, ghost steps: seq<Step>, ghost s: State)
      returns (outcome: Outcome)
      requires batch > 0 && Run(Machine(cfg), before, steps) == Some(s) && Drop(s, 0) == View(now) && OwnedBy(row, token)
      requires s.workers.Keys == {0} && s.workers[0].phase.Paged?
      requires s.workers[0].token == token && s.workers[0].batch == batch
      requires s.workers[0].phase.page == page && s.workers[0].phase.done == |page|
      modifies this`row, this`finished
      ensures Run(Machine(cfg), before, steps + [Conclude(0)]) == Some(View(now))
      ensures !outcome.LeaseNotOwned? && !outcome.NoActiveWindow?
      ensures outcome.WindowFinished? ==> row.Some? && row.value.watermark == old(row).value.windowEnd
      ensures outcome.Continues? ==> row.Some? && CursorOf(row.value) == Some(outcome.cursor)
      ensures outcome.Continues? ==>
        page != [] && outcome.cursor.at == page[|page| - 1].row.stamp && outcome.cursor.key == page[|page| - 1].key
    {
      RunSnoc(Machine(cfg), before, steps, s, Conclude(0));
      if |page| < batch {
        row := Finish(row, token);
        finished := finished + 1;
        outcome := WindowFinished;
      } else if page[|page| - 1].key == 0 {
        outcome := MissingCursor;
      } else {
        row := Advance(row, token, LastPosition(page), now);
        outcome := Continues(LastPosition(page));
      }
    }

    /** `_run_scope_batch`: returns the page it projected and how it ended. */
    method RunScopeBatch(cfg: Config, token: Token, configured: Option<int>, now: Time)
      returns (page: seq<Entry>, outcome: Outcome)
      modifies this
      ensures Run(Machine(cfg), old(View(now)), BatchSteps(token, BatchSize(configured), page, outcome)) == Some(View(now))
      ensures outcome.WindowFinished? ==> old(row).Some? && row.Some? && row.value.watermark == old(row).value.windowEnd
      ensures outcome.Continues? ==> row.Some? && CursorOf(row.value) == Some(outcome.cursor)
      ensures outcome.Continues? ==>
        page != [] && outcome.cursor.at == page[|page| - 1].row.stamp && outcome.cursor.key == page[|page| - 1].key
    {
      var batch := BatchSize(configured);
      page := [];
      ghost var before := View(now);
      var owned := ReadOwned(row, token, now);
      if owned.None? {
        SkipsBatch(cfg, before, token, batch);
        outcome := LeaseNotOwned;
        return;
      }
      if owned.value.windowEnd.None? {
        SkipsBatch(cfg, before, token, batch);
        outcome := NoActiveWindow;
        return;
      }
      var window := Window(owned.value.windowStart, owned.value.windowEnd.value);
      page := FetchPage(table, window, CursorOf(owned.value), batch);
      TakesPage(cfg, before, token, batch, page);
      ghost var steps := [Start(0, token, batch), Read(0), Fetch(0, page)];
      ghost var s := ProjectPage(cfg, page, now, before, steps, Holding(before, token, batch, page));
      outcome := ConcludeBatch(cfg, token, batch, page, now, before, steps + Repeat(|page|), s);
    }
  }

  /** One more row of the held page: what it changes, as a step of the run. */
  lemma ProjectsNext(cfg: Config, before: State, steps: seq<Step>, done: nat, s: State, worker: Worker)
    requires Run(Machine(cfg), before, steps + Repeat(done)) == Some(s)
    requires worker.phase.Paged? && done < |worker.phase.page|
    requires s.workers == map[0 := worker.(phase := worker.phase.(done := done))]
    ensures Run(Machine(cfg), before, steps + Repeat(done + 1)) == Some(ApplyProject(cfg, s, 0))
    ensures
      var e, next := worker.phase.page[done], ApplyProject(cfg, s, 0);
      var g := cfg.group(e.key);
      var current := if g in s.docs then s.docs[g] else map[];
      && next.workers == map[0 := worker.(phase := worker.phase.(done := done + 1))]
      && Drop(next, 0) == Drop(s, 0).(projected := s.projected + {e},
                                      docs := s.docs[g := if cfg.reload then s.table else current[e.key := e.row]])
  {
    RunSnoc(Machine(cfg), before, steps + Repeat(done), s, Project(0));
    assert steps + Repeat(done) + [Project(0)] == steps + Repeat(done + 1);
    assert Drop(ApplyProject(cfg, s, 0), 0).workers == Drop(s, 0).workers;
  }

  /** No worker owns an open window under this token. */
  predicate NothingOwned(s: State, token: Token) {
    ReadOwned(s.row, token, s.now).None? || s.row.value.windowEnd.None?
  }

  /** `s` with worker 0 holding a page it has just fetched. */
  function Holding(s: State, token: Token, batch: nat, page: seq<Entry>): State
    requires s.row.Some? && s.row.value.windowEnd.Some?
  {
    s.(workers := map[0 := Worker(token, batch, Paged(OpenWindow(s.row.value), CursorOf(s.row.value), page, 0))])
  }

  function Reading(s: State, token: Token, batch: nat): State
    requires s.row.Some? && s.row.value.windowEnd.Some?
  {
    s.(workers := map[0 := Worker(token, batch, Owned(OpenWindow(s.row.value), CursorOf(s.row.value)))])
  }

  /** A run that finds the lease gone or the window closed changes nothing. */
  lemma {:induction false} SkipsBatch(cfg: Config, s: State, token: Token, batch: nat)
    requires batch > 0 && s.workers == map[] && NothingOwned(s, token)
    ensures Run(Machine(cfg), s, [Start(0, token, batch), Read(0)]) == Some(s)
  {
    StartAndRead(cfg, s, token, batch);
    assert ApplyRead(Apply(cfg, s, Start(0, token, batch)), 0).workers == map[];
  }

  /** A run that owns the window comes to hold the page it fetched. */
  lemma TakesPage(cfg: Config, s: State, token: Token, batch: nat, page: seq<Entry>)
    requires batch > 0 && s.workers == map[] && !NothingOwned(s, token)
    requires IsPage(s.table, OpenWindow(s.row.value), CursorOf(s.row.value), batch, page)
    ensures Run(Machine(cfg), s, [Start(0, token, batch), Read(0), Fetch(0, page)])
         == Some(Holding(s, token, batch, page))
  {
    var head, read := [Start(0, token, batch), Read(0)], Reading(s, token, batch);
    StartAndRead(cfg, s, token, batch);
    assert ApplyRead(Apply(cfg, s, Start(0, token, batch)), 0) == read;
    assert Enabled(cfg, read, Fetch(0, page)) && Apply(cfg, read, Fetch(0, page)) == Holding(s, token, batch, page);
    RunSnoc(Machine(cfg), s, head, read, Fetch(0, page));
    assert head + [Fetch(0, page)] == [Start(0, token, batch), Read(0), Fetch(0, page)];
  }

  lemma StartAndRead(cfg: Config, s: State, token: Token, batch: nat)
    requires batch > 0 && s.workers == map[]
    ensures Run(Machine(cfg), s, [Start(0, token, batch), Read(0)])
         == Some(ApplyRead(Apply(cfg, s, Start(0, token, batch)), 0))
  {
    TwoSteps(Machine(cfg), s, Start(0, token, batch), Apply(cfg, s, Start(0, token, batch)), Read(0));
  }
}
