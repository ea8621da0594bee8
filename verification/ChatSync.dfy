/**
 * Resumable Google Chat syncs of one space (workflows/google_chat/sync.py, `_sync_space`, `_load_checkpoint`,
 * `_update_checkpoint_success`, `_update_checkpoint_failure`): page-budgeted scans with continuation tokens,
 * any of which may fail after any call or statement.
 */
module ChatSync {
  import opened Common
  import opened ChatTables

  type Time = int

  /** `createTime > t`, or no filter. */
  type Filter = Option<Time>

  /** A page token remembers the filter it was issued under. */
  datatype Token = Token(filter: Filter, page: nat)

  datatype Checkpoint = Checkpoint(watermark: Option<Time>, token: Option<Token>, filter: Filter)

  datatype State = State(tables: Tables, checkpoint: Checkpoint)

  /** The pages of the fixed history under each filter; there is always at least one. */
  type Server = Filter -> seq<seq<Message>>

  ghost predicate Serves(server: Server) { forall f :: server(f) != [] }

  /** The messages of pages `from` up to `to`. */
  function Part(pages: seq<seq<Message>>, from: nat, to: nat): seq<Message>
    requires from <= to <= |pages|
    decreases |pages| + to
  {
    if from == to then [] else Part(pages, from, to - 1) + pages[to - 1]
  }

  /** A stored token carries the stored filter and points at an existing page. */
  predicate TokenFits(server: Server, cp: Checkpoint) {
    cp.token.Some? ==> cp.token.value.filter == cp.filter && cp.token.value.page < |server(cp.filter)|
  }

  /** The filter of the run: the stored one while continuing, else from an explicit `since`. */
  function StartFilter(cp: Checkpoint, since: Option<Time>, overlap: nat): Filter {
    if cp.token.Some? then cp.filter else if since.Some? then Some(since.value - overlap) else None
  }

  function StartPage(cp: Checkpoint): nat { if cp.token.Some? then cp.token.value.page else 0 }

  function Newer(newest: Option<Time>, m: Message): Option<Time> {
    if (m.id != "" && m.deleted) || m.created.None? then newest
    else if newest.None? || m.created.value > newest.value then m.created else newest
  }

  /** The newest of the first `n` messages. */
  function NewestTo(ms: seq<Message>, n: nat): Option<Time>
    requires n <= |ms|
  {
    if n == 0 then None else Newer(NewestTo(ms, n - 1), ms[n - 1])
  }

  function Newest(ms: seq<Message>): Option<Time> { NewestTo(ms, |ms|) }

  lemma {:induction false} NewestPrefix(a: seq<Message>, b: seq<Message>, n: nat)
    requires n <= |a|
    ensures NewestTo(a + b, n) == NewestTo(a, n)
  {
    if n > 0 {
      NewestPrefix(a, b, n - 1);
    }
  }

  /** The message counts for the watermark: it is no tombstone and has a creation time. */
  predicate Dated(m: Message) { m.created.Some? && (m.id == "" || !m.deleted) }

  /** The newest is the greatest creation time of the messages that are not tombstones, none if they have none. */
  lemma {:induction false} NewestExact(ms: seq<Message>, n: nat)
    requires n <= |ms|
    ensures NewestTo(ms, n).None? <==> forall i :: 0 <= i < n ==> !Dated(ms[i])
    ensures NewestTo(ms, n).Some? ==> exists i :: 0 <= i < n && Dated(ms[i]) && ms[i].created == NewestTo(ms, n)
    ensures NewestTo(ms, n).Some? ==>
      forall i :: 0 <= i < n && Dated(ms[i]) ==> ms[i].created.value <= NewestTo(ms, n).value
  {
    if n > 0 {
      NewestExact(ms, n - 1);
    }
  }

  /** The clamp against the pre-run checkpoint, then COALESCE in the upsert. */
  function Watermark(stored: Option<Time>, newest: Option<Time>): (w: Option<Time>)
    ensures stored.Some? ==> w.Some? && w.value >= stored.value
    ensures newest.Some? ==> w.Some? && w.value >= newest.value
  {
    if newest.None? then stored
    else if stored.Some? && newest.value < stored.value then stored else newest
  }

  /** A successful run of `read` pages. */
  ghost predicate Succeeds(server: Server, since: Option<Time>, overlap: nat, budget: nat, read: nat, s: State, s2: State) {
    var f := StartFilter(s.checkpoint, since, overlap);
    var pages := server(f);
    var from, to := StartPage(s.checkpoint), StartPage(s.checkpoint) + read;
    && 1 <= read && to <= |pages|
    && (to == |pages| || read == budget) && (budget > 0 ==> read <= budget)
    && s2.tables == Scan(s.tables, Part(pages, from, to))
    && MarkMoved(s.checkpoint, s2.checkpoint, Part(pages, from, to))
    && s2.checkpoint.token == (if to < |pages| then Some(Token(f, to)) else None)
    && s2.checkpoint.filter == (if to < |pages| then f else None)
  }

  /** The watermark after the messages `read`. */
  ghost predicate MarkMoved(before: Checkpoint, after: Checkpoint, read: seq<Message>) {
    after.watermark == Watermark(before.watermark, Newest(read))
  }

  /** A failed run leaves the checkpoint and has at most half-stored messages it would list again. */
  ghost predicate Fails(server: Server, since: Option<Time>, overlap: nat, s: State, s2: State) {
    var f := StartFilter(s.checkpoint, since, overlap);
    && StartPage(s.checkpoint) <= |server(f)|
    && s2.checkpoint == s.checkpoint
    && Near(s.tables, s2.tables, Part(server(f), StartPage(s.checkpoint), |server(f)|))
  }

  // ---- The code ------------------------------------------------------------------------------------

  /** How many more calls succeed before one raises; None never raises. */
  type Luck = Option<nat>

  /** `t` and `newest` are what storing the messages `done` makes of `base`. */
  ghost predicate Synced(base: Tables, t: Tables, newest: Option<Time>, done: seq<Message>) {
    t == Scan(base, done) && newest == Newest(done)
  }

  ghost predicate Among(messages: seq<Message>, ms: seq<Message>) { forall m :: m in messages ==> m in ms }

  /** The same, and nothing but messages of `ms` was touched. */
  ghost predicate Storing(base: Tables, t: Tables, newest: Option<Time>, done: seq<Message>, ms: seq<Message>) {
    Synced(base, t, newest, done) && Near(base, t, ms)
  }

  /** The first `n` messages of a page are stored after `before`. */
  ghost predicate StoredTo(base: Tables, t: Tables, newest: Option<Time>, before: seq<Message>, page: seq<Message>,
                           n: nat, ms: seq<Message>) {
    n <= |page| && Storing(base, t, newest, before + page[..n], ms)
  }

  lemma StoredNone(base: Tables, t: Tables, newest: Option<Time>, before: seq<Message>, page: seq<Message>, ms: seq<Message>)
    requires Storing(base, t, newest, before, ms)
    ensures StoredTo(base, t, newest, before, page, 0, ms)
  {
    assert before + page[..0] == before;
  }

  lemma StoredOne(base: Tables, t: Tables, u: Tables, newest: Option<Time>, before: seq<Message>, page: seq<Message>,
                  n: nat, ms: seq<Message>)
    requires n < |page| && StoredTo(base, t, newest, before, page, n, ms)
    requires u == ExecAll(t, Program(page[n])) && Near(base, u, ms)
    ensures StoredTo(base, u, Newer(newest, page[n]), before, page, n + 1, ms)
  {
    var done := before + page[..n];
    SyncedNext(base, t, newest, done, page[n]);
    assert before + page[..n + 1] == done + [page[n]];
  }

  lemma SyncedNext(base: Tables, t: Tables, newest: Option<Time>, done: seq<Message>, m: Message)
    requires Synced(base, t, newest, done)
    ensures Synced(base, ExecAll(t, Program(m)), Newer(newest, m), done + [m])
  {
    ScanConcat(base, done, [m]);
    NewestPrefix(done, [m], |done|);
    ScanOne(t, m);
  }

  lemma StoredAll(base: Tables, t: Tables, newest: Option<Time>, before: seq<Message>, page: seq<Message>, ms: seq<Message>)
    requires StoredTo(base, t, newest, before, page, |page|, ms)
    ensures Storing(base, t, newest, before + page, ms)
  {
    assert page[..|page|] == page;
  }

  /** Pages `from` to `at` are stored, and nothing but messages of the listing was touched. */
  ghost predicate ReadTo(base: Tables, t: Tables, newest: Option<Time>, pages: seq<seq<Message>>, from: nat, at: nat) {
    && from <= at <= |pages|
    && Synced(base, t, newest, Part(pages, from, at)) && Near(base, t, Part(pages, from, |pages|))
  }

  /** The paging loop stops at the end of the listing or when the budget is spent. */
  predicate Stops(pages: nat, from: nat, budget: nat, at: nat) {
    from < at <= pages && (at == pages || at - from == budget) && (budget > 0 ==> at - from <= budget)
  }

  /** The checkpoint a successful run stores. */
  function NextCheckpoint(cp: Checkpoint, f: Filter, pages: nat, at: nat, newest: Option<Time>): Checkpoint {
    Checkpoint(Watermark(cp.watermark, newest), if at < pages then Some(Token(f, at)) else None,
               if at < pages then f else None)
  }

  lemma EndsWell(server: Server, r: RunInfo, s: State, s2: State, f: Filter, newest: Option<Time>, at: nat)
    requires f == StartFilter(s.checkpoint, r.since, r.overlap)
    requires Stops(|server(f)|, StartPage(s.checkpoint), r.budget, at)
    requires Synced(s.tables, s2.tables, newest, Part(server(f), StartPage(s.checkpoint), at))
    requires s2.checkpoint == NextCheckpoint(s.checkpoint, f, |server(f)|, at, newest)
    requires r.read == Some(at - StartPage(s.checkpoint))
    ensures TokenFits(server, s2.checkpoint)
    ensures Succeeds(server, r.since, r.overlap, r.budget, at - StartPage(s.checkpoint), s, s2)
  {}

  lemma EndsBadly(server: Server, r: RunInfo, s: State, s2: State, f: Filter)
    requires f == StartFilter(s.checkpoint, r.since, r.overlap) && TokenFits(server, s.checkpoint)
    requires StartPage(s.checkpoint) <= |server(f)|
    requires Near(s.tables, s2.tables, Part(server(f), StartPage(s.checkpoint), |server(f)|))
    requires s2.checkpoint == s.checkpoint && r.read.None?
    ensures TokenFits(server, s2.checkpoint) && IsRun(server, r, s, s2)
  {}

  lemma NothingRead(base: Tables, pages: seq<seq<Message>>, from: nat)
    requires from <= |pages|
    ensures ReadTo(base, base, None, pages, from, from)
  {}

  class Space {
    var tables: Tables
    var checkpoint: Checkpoint

    ghost function View(): State
      reads this
    {
      State(tables, checkpoint)
    }

    /** The statements of one message, stopping at the first that raises. */
    method StoreMessage(m: Message, luck: Luck, ghost base: Tables, ghost ms: seq<Message>)
      returns (ok: bool, rest: Luck)
      requires m in ms && Near(base, tables, ms)
      modifies this`tables
      ensures Near(base, tables, ms)
      ensures ok ==> tables == ExecAll(old(tables), Program(m))
      ensures luck.None? ==> ok && rest.None?
    {
      rest := luck;
      var program := Program(m);
      for n := 0 to |program|
        invariant tables == ExecAll(old(tables), program[..n])
        invariant Near(base, tables, ms)
        invariant luck.None? ==> rest.None?
      {
        if rest == Some(0) {
          ok := false;
          return;
        }
        rest := if rest.Some? then Some(rest.value - 1) else None;
        assert program[..n + 1][..n] == program[..n];
        NearStep(base, tables, ms, m, program[n]);
        tables := Exec(tables, program[n]);
      }
      assert program[..|program|] == program;
      ok := true;
    }

    /** One page of messages. */
    method StorePage(messages: seq<Message>, luck: Luck, newest: Option<Time>,
                     ghost base: Tables, ghost before: seq<Message>, ghost ms: seq<Message>)
      returns (ok: bool, rest: Luck, seen: Option<Time>)
      requires Among(messages, ms)
      requires Storing(base, tables, newest, before, ms)
      modifies this`tables
      ensures ok ==> Storing(base, tables, seen, before + messages, ms)
      ensures !ok ==> Near(base, tables, ms)
      ensures luck.None? ==> ok && rest.None?
    {
      rest, seen := luck, newest;
      StoredNone(base, tables, seen, before, messages, ms);
      for n := 0 to |messages|
        invariant StoredTo(base, tables, seen, before, messages, n, ms)
        invariant luck.None? ==> rest.None?
      {
        ghost var t := tables;
        ok, rest := StoreMessage(messages[n], rest, base, ms);
        if !ok {
          return;
        }
        StoredOne(base, t, tables, seen, before, messages, n, ms);
        seen := Newer(seen, messages[n]);
      }
      StoredAll(base, tables, seen, before, messages, ms);
      ok := true;
    }

    /** One list call and its page. */
    method ReadPage(pages: seq<seq<Message>>, from: nat, at: nat, luck: Luck, newest: Option<Time>, ghost base: Tables)
      returns (ok: bool, rest: Luck, seen: Option<Time>)
      requires at < |pages| && ReadTo(base, tables, newest, pages, from, at)
      modifies this`tables
      ensures ok ==> ReadTo(base, tables, seen, pages, from, at + 1)
      ensures !ok ==> Near(base, tables, Part(pages, from, |pages|))
      ensures luck.None? ==> ok && rest.None?
    {
      if luck == Some(0) {
        return false, luck, newest;
      }
      PartHolds(pages, from, at, |pages|);
      ok, rest, seen := StorePage(pages[at], if luck.Some? then Some(luck.value - 1) else None, newest,
                                  base, Part(pages, from, at), Part(pages, from, |pages|));
    }

    /** The paging loop: stops at the end of the listing, when the budget is spent, or when a call raises. */
    method ReadPages(pages: seq<seq<Message>>, from: nat, budget: nat, luck: Luck)
      returns (ok: bool, at: nat, newest: Option<Time>)
      requires from < |pages|
      modifies this`tables
      ensures from <= at
      ensures ok ==> Stops(|pages|, from, budget, at) && ReadTo(old(tables), tables, newest, pages, from, at)
      ensures !ok ==> Near(old(tables), tables, Part(pages, from, |pages|))
      ensures luck.None? ==> ok
    {
      ghost var base := tables;
      var left := luck;
      at, newest := from, None;
      NothingRead(base, pages, from);
      while true
        invariant from <= at < |pages| && (budget > 0 ==> at - from < budget)
        invariant ReadTo(base, tables, newest, pages, from, at)
        invariant luck.None? ==> left.None?
        decreases |pages| - at
      {
        ok, left, newest := ReadPage(pages, from, at, left, newest, base);
        if !ok {
          return;
        }
        at := at + 1;
        if at == |pages| || (budget > 0 && at - from >= budget) {
          return;
        }
      }
    }

    /** `_sync_space`; when a call raises, the handler's failure update leaves the resume point alone. */
    method SyncSpace(server: Server, since: Option<Time>, overlap: nat, budget: nat, luck: Luck)
      returns (ok: bool, read: nat)
      requires Serves(server) && TokenFits(server, checkpoint)
      modifies this
      ensures TokenFits(server, checkpoint)
      ensures IsRun(server, RunInfo(since, overlap, budget, if ok then Some(read) else None), old(View()), View())
      ensures luck.None? ==> ok
    {
      ghost var s := View();
      StartsInside(server, checkpoint, since, overlap);
      var filter := StartFilter(checkpoint, since, overlap);
      var from := StartPage(checkpoint);
      var at, newest;
      ok, at, newest := ReadPages(server(filter), from, budget, luck);
      read := at - from;
      if ok {
        checkpoint := NextCheckpoint(checkpoint, filter, |server(filter)|, at, newest);
        EndsWell(server, RunInfo(since, overlap, budget, Some(read)), s, View(), filter, newest, at);
      } else {
        EndsBadly(server, RunInfo(since, overlap, budget, None), s, View(), filter);
      }
    }
  }

  lemma StartsInside(server: Server, cp: Checkpoint, since: Option<Time>, overlap: nat)
    requires Serves(server) && TokenFits(server, cp)
    ensures StartPage(cp) < |server(StartFilter(cp, since, overlap))|
  {}

  lemma ScanOne(t: Tables, m: Message)
    ensures Scan(t, [m]) == ExecAll(t, Program(m))
  {
    assert [m][1..] == [];
  }

  lemma {:induction false} PartSplit(pages: seq<seq<Message>>, from: nat, mid: nat, to: nat)
    requires from <= mid <= to <= |pages|
    ensures Part(pages, from, to) == Part(pages, from, mid) + Part(pages, mid, to)
    decreases |pages| + to
  {
    if mid < to {
      PartSplit(pages, from, mid, to - 1);
    }
  }

  lemma {:induction false} PartHolds(pages: seq<seq<Message>>, from: nat, at: nat, to: nat)
    requires from <= at < to <= |pages|
    ensures Among(pages[at], Part(pages, from, to))
    decreases |pages| + to
  {
    if at < to - 1 {
      PartHolds(pages, from, at, to - 1);
    }
  }

  // ---- Sequences of runs -----------------------------------------------------------------------------

  /** The arguments of one run, and Some(n) in `read` when it succeeded after n pages. */
  datatype RunInfo = RunInfo(since: Option<Time>, overlap: nat, budget: nat, read: Option<nat>)

  ghost predicate IsRun(server: Server, r: RunInfo, s: State, s2: State) {
    if r.read.Some? then Succeeds(server, r.since, r.overlap, r.budget, r.read.value, s, s2)
    else Fails(server, r.since, r.overlap, s, s2)
  }

  /**
   * Runs of which every one that starts a new scan starts it under `f`. A run that continues a scan may have any
   * arguments: the stored filter is used instead.
   */
  ghost predicate AreRuns(server: Server, f: Filter, runs: seq<RunInfo>, states: seq<State>) {
    && |states| == |runs| + 1
    && (forall i :: 0 <= i < |runs| ==> RunAt(server, f, runs, states, i))
  }

  ghost predicate RunAt(server: Server, f: Filter, runs: seq<RunInfo>, states: seq<State>, i: nat)
    requires i < |runs| && |states| == |runs| + 1
  {
    IsRun(server, runs[i], states[i], states[i + 1]) && StartsUnder(f, runs[i], states[i])
  }

  /** The filter a new scan starts with. */
  function FreshFilter(r: RunInfo): Filter {
    if r.since.Some? then Some(r.since.value - r.overlap) else None
  }

  predicate StartsUnder(f: Filter, r: RunInfo, s: State) { s.checkpoint.token.None? ==> FreshFilter(r) == f }

  /** One unbounded scan of everything under the filter. */
  function FullScan(server: Server, f: Filter, t: Tables): Tables {
    Scan(t, Part(server(f), 0, |server(f)|))
  }

  /** Finishing the scan from here gives what one unbounded scan of `start` gives. */
  ghost predicate Converges(server: Server, f: Filter, start: Tables, s: State) {
    && (s.checkpoint.token.Some? ==> s.checkpoint.filter == f)
    && StartPage(s.checkpoint) <= |server(f)|
    && Scan(s.tables, Part(server(f), StartPage(s.checkpoint), |server(f)|)) == FullScan(server, f, start)
  }

  lemma ScanSplit(t: Tables, pages: seq<seq<Message>>, from: nat, to: nat)
    requires from <= to <= |pages|
    ensures Scan(t, Part(pages, from, |pages|)) == Scan(Scan(t, Part(pages, from, to)), Part(pages, to, |pages|))
  {
    PartSplit(pages, from, to, |pages|);
    ScanConcat(t, Part(pages, from, to), Part(pages, to, |pages|));
  }

  lemma SuccessConverges(server: Server, f: Filter, r: RunInfo, start: Tables, s: State, s2: State)
    requires Converges(server, f, start, s) && StartsUnder(f, r, s)
    requires r.read.Some? && IsRun(server, r, s, s2)
    ensures Converges(server, f, start, s2)
    ensures s2.checkpoint.token.None? ==> s2.tables == FullScan(server, f, start)
  {
    var to := StartPage(s.checkpoint) + r.read.value;
    SuccessIs(server, f, r, s, s2);
    ReadsOn(server(f), start, s.tables, s2.tables, StartPage(s.checkpoint), to);
    if to == |server(f)| {
      assert StartPage(s2.checkpoint) == 0;
    } else {
      assert StartPage(s2.checkpoint) == to;
    }
  }

  /** What a success says, in terms of the filter it ran under. */
  lemma SuccessIs(server: Server, f: Filter, r: RunInfo, s: State, s2: State)
    requires (s.checkpoint.token.Some? ==> s.checkpoint.filter == f) && StartsUnder(f, r, s)
    requires r.read.Some? && IsRun(server, r, s, s2)
    ensures
      var from, to := StartPage(s.checkpoint), StartPage(s.checkpoint) + r.read.value;
      && from < to <= |server(f)| && s2.tables == Scan(s.tables, Part(server(f), from, to))
      && s2.checkpoint.token == (if to < |server(f)| then Some(Token(f, to)) else None)
      && (to < |server(f)| ==> s2.checkpoint.filter == f)
  {
    assert StartFilter(s.checkpoint, r.since, r.overlap) == f;
  }

  /** Reading on converges; at the end it is the full scan, which a new scan would not change. */
  lemma ReadsOn(pages: seq<seq<Message>>, start: Tables, t: Tables, u: Tables, from: nat, to: nat)
    requires from <= to <= |pages| && Scan(t, Part(pages, from, |pages|)) == Scan(start, Part(pages, 0, |pages|))
    requires u == Scan(t, Part(pages, from, to))
    ensures Scan(u, Part(pages, to, |pages|)) == Scan(start, Part(pages, 0, |pages|))
    ensures to == |pages| ==> u == Scan(start, Part(pages, 0, |pages|)) == Scan(u, Part(pages, 0, |pages|))
  {
    ScanSplit(t, pages, from, to);
    ScanIdempotent(start, Part(pages, 0, |pages|));
  }

  lemma FailureConverges(server: Server, f: Filter, r: RunInfo, start: Tables, s: State, s2: State)
    requires Converges(server, f, start, s) && StartsUnder(f, r, s)
    requires Fails(server, r.since, r.overlap, s, s2)
    ensures Converges(server, f, start, s2)
  {
    FailureIs(server, f, r, s, s2);
    ScanDetermined(s.tables, s2.tables, Part(server(f), StartPage(s.checkpoint), |server(f)|));
  }

  lemma FailureIs(server: Server, f: Filter, r: RunInfo, s: State, s2: State)
    requires (s.checkpoint.token.Some? ==> s.checkpoint.filter == f) && StartsUnder(f, r, s)
    requires Fails(server, r.since, r.overlap, s, s2)
    ensures s2.checkpoint == s.checkpoint && StartPage(s.checkpoint) <= |server(f)|
    ensures Near(s.tables, s2.tables, Part(server(f), StartPage(s.checkpoint), |server(f)|))
  {
    assert StartFilter(s.checkpoint, r.since, r.overlap) == f;
  }

  lemma RunConverges(server: Server, f: Filter, r: RunInfo, start: Tables, s: State, s2: State)
    requires Converges(server, f, start, s) && StartsUnder(f, r, s) && IsRun(server, r, s, s2)
    ensures Converges(server, f, start, s2)
  {
    if r.read.Some? {
      SuccessConverges(server, f, r, start, s, s2);
    } else {
      FailureConverges(server, f, r, start, s, s2);
    }
  }

  lemma {:induction false} RunsConverge(server: Server, f: Filter, runs: seq<RunInfo>, states: seq<State>, n: nat)
    requires AreRuns(server, f, runs, states) && n < |states|
    requires states[0].checkpoint.token.None?
    ensures Converges(server, f, states[0].tables, states[n])
  {
    if n > 0 {
      RunsConverge(server, f, runs, states, n - 1);
      assert RunAt(server, f, runs, states, n - 1);
      RunConverges(server, f, runs[n - 1], states[0].tables, states[n - 1], states[n]);
    }
  }

  /**
   * Any sequence of budgeted and failed runs, each with its own arguments, whose last run succeeds and leaves
   * no token, leaves the same tables as one unbounded scan under the filter the scan began with.
   */
  lemma ResumeEquivalence(server: Server, f: Filter, runs: seq<RunInfo>, states: seq<State>)
    requires AreRuns(server, f, runs, states) && runs != []
    requires states[0].checkpoint.token.None?
    requires runs[|runs| - 1].read.Some? && states[|runs|].checkpoint.token.None?
    ensures states[|runs|].tables == FullScan(server, f, states[0].tables)
  {
    var n := |runs| - 1;
    RunsConverge(server, f, runs, states, n);
    assert RunAt(server, f, runs, states, n);
    SuccessConverges(server, f, runs[n], states[0].tables, states[n], states[n + 1]);
  }

  /** Sequences of runs from no token to no token, the last of which succeeded when `finished` asks for it. */
  ghost predicate FromEmptyToEmpty(server: Server, f: Filter, runs: seq<RunInfo>, states: seq<State>, finished: bool) {
    && Serves(server) && AreRuns(server, f, runs, states) && runs != []
    && states[0].checkpoint.token.None? && states[|runs|].checkpoint.token.None?
    && (finished ==> runs[|runs| - 1].read.Some?)
  }

  ghost predicate AlwaysFullScan(finished: bool) {
    forall server: Server, f: Filter, runs: seq<RunInfo>, states: seq<State> ::
      FromEmptyToEmpty(server, f, runs, states, finished) ==>
        states[|runs|].tables == FullScan(server, f, states[0].tables)
  }

  /** An empty token means a complete scan over all such sequences exactly when the last run has to have succeeded. */
  lemma ResumeExactly(finished: bool)
    ensures AlwaysFullScan(finished) <==> finished
  {
    if finished {
      forall server: Server, f: Filter, runs: seq<RunInfo>, states: seq<State>
        | FromEmptyToEmpty(server, f, runs, states, finished)
        ensures states[|runs|].tables == FullScan(server, f, states[0].tables)
      {
        ResumeEquivalence(server, f, runs, states);
      }
    } else {
      var server, r, s, s2 := FailedFirstRun();
      assert RunAt(server, None, [r], [s, s2], 0);
      assert FromEmptyToEmpty(server, None, [r], [s, s2], finished);
    }
  }

  /** A first run that fails after the message's row and before its attachment: no token, and half a scan. */
  lemma FailedFirstRun() returns (server: Server, r: RunInfo, s: State, s2: State)
    ensures Serves(server) && r.read.None? && IsRun(server, r, s, s2) && StartsUnder(None, r, s)
    ensures s.checkpoint.token.None? && s2.checkpoint.token.None?
    ensures s2.tables != s.tables && s2.tables != FullScan(server, None, s.tables)
  {
    var m := Message("m", false, "hello", "row", [Item("a", "file")], false, [], None);
    server := f => [[m]];
    r := RunInfo(None, 0, 0, None);
    s := State(Tables(map[], map[]), Checkpoint(None, None, None));
    s2 := s.(tables := Exec(s.tables, Program(m)[0]));
    assert Program(m)[0] == PutMessage("m", "row");
    assert "m" in s2.tables.messages && "m" !in s.tables.messages;
    assert ItemKey(Attachment, "m", "a") !in s2.tables.items;
    assert Part([[m]], 0, 1) == [m];
    assert Touched([m], "m") by {
      assert m in [m];
    }
    ScanOne(s.tables, m);
    StoredGet(s.tables, m, Attachment, "a");
    assert LastItem([Item("a", "file")], "a") == Some("file");
  }

  /** How many of the first `n` runs succeeded. */
  function Successes(runs: seq<RunInfo>, n: nat): nat
    requires n <= |runs|
  {
    if n == 0 then 0 else Successes(runs, n - 1) + if runs[n - 1].read.Some? then 1 else 0
  }

  /** Run `i` used the budget and did not finish the scan. */
  ghost predicate Unfinished(runs: seq<RunInfo>, states: seq<State>, budget: nat, i: nat)
    requires i < |runs| && |states| == |runs| + 1
  {
    runs[i].budget == budget && (runs[i].read.Some? ==> states[i + 1].checkpoint.token.Some?)
  }

  /** One run that does not finish the scan: a success stores the token `budget` pages further on. */
  lemma PartialRun(server: Server, f: Filter, r: RunInfo, s: State, s2: State)
    requires IsRun(server, r, s, s2) && StartsUnder(f, r, s)
    requires s.checkpoint.token.Some? ==> s.checkpoint.filter == f
    requires StartPage(s.checkpoint) < |server(f)|
    requires r.read.Some? ==> s2.checkpoint.token.Some?
    ensures s2.checkpoint.token.Some? ==> s2.checkpoint.filter == f
    ensures StartPage(s2.checkpoint) < |server(f)|
    ensures StartPage(s2.checkpoint) == StartPage(s.checkpoint) + if r.read.Some? then r.budget else 0
  {}

  /**
   * While no run has finished the scan, k successful runs of budget m have stored exactly the token of page
   * k * m, whatever failed in between and whatever the runs' other arguments; so k * m stays below the number
   * of pages.
   */
  lemma {:induction false} RunsNeeded(server: Server, f: Filter, budget: nat,
                                      runs: seq<RunInfo>, states: seq<State>, n: nat)
    requires Serves(server) && AreRuns(server, f, runs, states) && budget > 0 && n <= |runs|
    requires forall i :: 0 <= i < |runs| ==> Unfinished(runs, states, budget, i)
    requires states[0].checkpoint.token.None?
    ensures StartPage(states[n].checkpoint) == Successes(runs, n) * budget < |server(f)|
    ensures states[n].checkpoint.token.Some? ==> states[n].checkpoint.filter == f
  {
    if n > 0 {
      RunsNeeded(server, f, budget, runs, states, n - 1);
      assert RunAt(server, f, runs, states, n - 1);
      assert Unfinished(runs, states, budget, n - 1);
      PartialRun(server, f, runs[n - 1], states[n - 1], states[n]);
      OneMoreIf(Successes(runs, n - 1), budget, runs[n - 1].read.Some?);
    }
  }

  lemma OneMoreIf(k: nat, m: nat, more: bool)
    ensures (k + if more then 1 else 0) * m == k * m + if more then m else 0
  {}

  /**
   * A successful run leaves the watermark it found or the creation time of a message it read that is no tombstone,
   * and none of those is newer.
   */
  lemma RunWatermark(server: Server, r: RunInfo, s: State, s2: State)
    requires r.read.Some? && Succeeds(server, r.since, r.overlap, r.budget, r.read.value, s, s2)
    ensures
      var from, mark := StartPage(s.checkpoint), s2.checkpoint.watermark;
      var read := Part(server(StartFilter(s.checkpoint, r.since, r.overlap)), from, from + r.read.value);
      && (mark == s.checkpoint.watermark || exists i :: 0 <= i < |read| && Dated(read[i]) && read[i].created == mark)
      && (forall i :: 0 <= i < |read| && Dated(read[i]) ==> mark.Some? && read[i].created.value <= mark.value)
  {
    var from := StartPage(s.checkpoint);
    MarkIs(s.checkpoint, s2.checkpoint, Part(server(StartFilter(s.checkpoint, r.since, r.overlap)), from, from + r.read.value));
  }

  lemma MarkIs(before: Checkpoint, after: Checkpoint, read: seq<Message>)
    requires MarkMoved(before, after, read)
    ensures after.watermark == before.watermark
            || exists i :: 0 <= i < |read| && Dated(read[i]) && read[i].created == after.watermark
    ensures forall i :: 0 <= i < |read| && Dated(read[i]) ==>
      after.watermark.Some? && read[i].created.value <= after.watermark.value
  {
    NewestExact(read, |read|);
  }

  /** No later watermark is below an earlier one. */
  predicate NotBelow(a: Option<Time>, b: Option<Time>) { a.Some? ==> b.Some? && a.value <= b.value }

  lemma RunKeeps(server: Server, r: RunInfo, s: State, s2: State)
    requires TokenFits(server, s.checkpoint) && IsRun(server, r, s, s2)
    ensures TokenFits(server, s2.checkpoint)
    ensures NotBelow(s.checkpoint.watermark, s2.checkpoint.watermark)
  {}

  /**
   * Over any sequence of runs with any arguments, a stored token is only ever used with the filter it was issued
   * under, and the watermark never decreases.
   */
  lemma {:induction false} CheckpointKept(server: Server, runs: seq<RunInfo>, states: seq<State>, m: nat, n: nat)
    requires |states| == |runs| + 1 && m <= n < |states| && TokenFits(server, states[0].checkpoint)
    requires forall i, j :: 0 <= i && j == i + 1 && j < |states| ==> IsRun(server, runs[i], states[i], states[j])
    ensures TokenFits(server, states[n].checkpoint)
    ensures NotBelow(states[m].checkpoint.watermark, states[n].checkpoint.watermark)
  {
    if n > 0 {
      CheckpointKept(server, runs, states, if m < n then m else n - 1, n - 1);
      RunKeeps(server, runs[n - 1], states[n - 1], states[n]);
    }
  }
}
