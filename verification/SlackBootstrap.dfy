/**
 * Coverage of a channel's bootstrap backfill (workflows/slack/shared.py, workflows/slack/backfill.py):
 * seed, claim, page, requeue, fail, widen and complete, by any number of workers, some of them stale.
 */
module SlackBootstrap {
  import opened Common
  import opened SlackJobs
  import opened Runs

  /**
   * `history` is the channel's messages by timestamp, in the order the server lists them; `widenSkipped`
   * says whether a job may be widened after it was skipped as permanently unreadable, `exclusive` that a job is
   * claimed only while no worker holds it.
   */
  datatype Config = Config(history: seq<Time>, widenSkipped: bool, exclusive: bool)

  const KEY := "bootstrap"

  /** What the server lists for an inclusive window. */
  function Listing(history: seq<Time>, oldest: Time, latest: Time): seq<Time> {
    if history == [] then []
    else
      var rest := Listing(history[1..], oldest, latest);
      if oldest <= history[0] <= latest then [history[0]] + rest else rest
  }

  lemma {:induction false} ListingExact(history: seq<Time>, oldest: Time, latest: Time, m: Time)
    ensures m in Listing(history, oldest, latest) <==> m in history && oldest <= m <= latest
  {
    if history != [] {
      ListingExact(history[1..], oldest, latest, m);
      assert history == [history[0]] + history[1..];
    }
  }

  /** A worker's running payload; `paged` once a page was read, `done` when it had no next cursor. */
  datatype Worker = Worker(payload: Payload, paged: bool, done: bool)

  /**
   * `fetched` is every timestamp upserted so far, `seeded` the latest bound of the seeding window, `asked` the
   * oldest bound of the last seeding or widening that took effect.
   */
  datatype State = State(
    jobs: Jobs, fetched: set<Time>, workers: map<nat, Worker>, seeded: Option<Time>, asked: Option<Time>)

  datatype Step =
    | SeedJob(oldest: Option<Time>, latest: Option<Time>, lookback: int)
    | WidenJob(widened: Option<Time>, lookback: int)
    | ClaimJob(w: nat, now: Time)
    | ReadPage(w: nat, count: nat)
    | Requeue(w: nat)
    | Complete(w: nat)
    | Fail(w: nat)
    | Skip(w: nat)
    | Crash(w: nat)

  predicate Bounded(p: Payload) { p.oldest.Some? && p.latest.Some? }

  function WindowOf(cfg: Config, p: Payload): seq<Time>
    requires Bounded(p)
  {
    Listing(cfg.history, p.oldest.value, p.latest.value)
  }

  /** Where the next page starts: `_job_state` sends the stored cursor, or none. */
  function Offset(p: Payload): nat { if p.cursor.Some? then p.cursor.value else 0 }

  /** `_next_channel_payload` for a bootstrap job: same window, new cursor. */
  function NextPayload(p: Payload, cursor: Option<nat>): Payload {
    Payload(cursor, p.oldest, p.latest, p.lookback, "", false)
  }

  /** `_sync_etl_channel_history` for one page of `count` messages of the payload's window. */
  function NextCursor(cfg: Config, p: Payload, count: nat): Option<nat>
    requires Bounded(p)
  {
    if Offset(p) + count < |WindowOf(cfg, p)| then Some(Offset(p) + count) else None
  }

  function Elements(s: seq<Time>): set<Time> { set m | m in s }

  predicate Enabled(cfg: Config, s: State, step: Step) {
    match step
    case SeedJob(_, _, _) => true
    case WidenJob(_, _) =>
      cfg.widenSkipped || KEY !in s.jobs || !(s.jobs[KEY].status.Completed? && s.jobs[KEY].payload.skipped)
    case ClaimJob(w, _) =>
      && w !in s.workers && KEY in s.jobs && !s.jobs[KEY].status.Completed?
      && (cfg.exclusive ==> s.workers == map[])
    case ReadPage(w, count) =>
      && w in s.workers && !s.workers[w].done && Bounded(s.workers[w].payload)
      && Offset(s.workers[w].payload) + count <= |WindowOf(cfg, s.workers[w].payload)|
    case Requeue(w) => w in s.workers && s.workers[w].paged && !s.workers[w].done
    case Complete(w) => w in s.workers && s.workers[w].done
    case Fail(w) => w in s.workers
    case Skip(w) => w in s.workers
    case Crash(w) => w in s.workers
  }

  function Drop(s: State, w: nat, jobs: Jobs): State { s.(jobs := jobs, workers := s.workers - {w}) }

  function ApplyPage(cfg: Config, s: State, w: nat, count: nat): State
    requires Enabled(cfg, s, ReadPage(w, count))
  {
    var p := s.workers[w].payload;
    var at := Offset(p);
    var next := NextCursor(cfg, p, count);
    s.(fetched := s.fetched + Elements(WindowOf(cfg, p)[at..at + count]),
       workers := s.workers[w := Worker(NextPayload(p, next), true, next.None?)])
  }

  function Apply(cfg: Config, s: State, step: Step): State
    requires Enabled(cfg, s, step)
  {
    match step
    case SeedJob(oldest, latest, lookback) =>
      s.(jobs := Seed(s.jobs, KEY, oldest, latest, lookback),
         seeded := if KEY !in s.jobs && oldest.Some? && latest.Some? then latest else s.seeded,
         asked := if KEY !in s.jobs && oldest.Some? && latest.Some? then oldest else s.asked)
    case WidenJob(oldest, lookback) =>
      s.(jobs := Widen(s.jobs, KEY, oldest, lookback),
         asked := if oldest.Some? && KEY in s.jobs && CanWiden(s.jobs[KEY], lookback) then oldest else s.asked)
    case ClaimJob(w, now) =>
      s.(jobs := Claim(s.jobs, {KEY}, now), workers := s.workers[w := Worker(s.jobs[KEY].payload, false, false)])
    case ReadPage(w, count) => ApplyPage(cfg, s, w, count)
    case Requeue(w) => Drop(s, w, Enqueue(s.jobs, KEY, Bootstrap, Some(s.workers[w].payload), true, true))
    case Complete(w) => Drop(s, w, MarkCompleted(s.jobs, KEY, Some(s.workers[w].payload)))
    case Fail(w) => Drop(s, w, MarkFailed(s.jobs, KEY))
    case Skip(w) => Drop(s, w, MarkSkipped(s.jobs, KEY))
    case Crash(w) => Drop(s, w, s.jobs)
  }

  /** The machine whose runs are all interleavings. */
  function Machine(cfg: Config): (State, Step) -> Option<State> {
    (s, step) => if Enabled(cfg, s, step) then Some(Apply(cfg, s, step)) else None
  }

  // ---- What every payload in the table or in a worker's hands promises -------------------------

  /** Everything above the window, up to the seeded bound, has been fetched. */
  ghost predicate AboveFetched(cfg: Config, fetched: set<Time>, seeded: Time, latest: Time) {
    forall m :: m in cfg.history && latest < m <= seeded ==> m in fetched
  }

  ghost predicate Good(cfg: Config, fetched: set<Time>, seeded: Option<Time>, p: Payload) {
    && Bounded(p) && seeded.Some?
    && AboveFetched(cfg, fetched, seeded.value, p.latest.value)
    && Offset(p) <= |WindowOf(cfg, p)|
    && (forall i :: 0 <= i < Offset(p) ==> WindowOf(cfg, p)[i] in fetched)
  }

  /** Every message from `oldest` to the seeded bound has been fetched. */
  ghost predicate CoversFrom(cfg: Config, s: State, oldest: Time) {
    s.seeded.Some? && forall m :: m in cfg.history && oldest <= m <= s.seeded.value ==> m in s.fetched
  }

  ghost predicate JobInv(cfg: Config, s: State) {
    KEY in s.jobs ==>
      && s.jobs[KEY].jobType.Bootstrap?
      && Good(cfg, s.fetched, s.seeded, s.jobs[KEY].payload)
      && (s.jobs[KEY].status.Completed? && !s.jobs[KEY].payload.skipped ==>
            CoversFrom(cfg, s, s.jobs[KEY].payload.oldest.value))
  }

  ghost predicate WorkerInv(cfg: Config, s: State, w: nat)
    requires w in s.workers
  {
    && Good(cfg, s.fetched, s.seeded, s.workers[w].payload)
    && (s.workers[w].paged ==> !s.workers[w].payload.skipped)
    && (s.workers[w].done ==> s.workers[w].paged && CoversFrom(cfg, s, s.workers[w].payload.oldest.value))
  }

  ghost predicate Inv(cfg: Config, s: State) {
    && JobInv(cfg, s)
    && (KEY !in s.jobs ==> s.workers == map[])
    && (forall w :: w in s.workers ==> WorkerInv(cfg, s, w))
  }

  /** More fetched messages never break a promise. */
  lemma GoodGrows(cfg: Config, f: set<Time>, g: set<Time>, seeded: Option<Time>, p: Payload)
    requires f <= g && Good(cfg, f, seeded, p)
    ensures Good(cfg, g, seeded, p)
  {
    assert AboveFetched(cfg, g, seeded.value, p.latest.value);
  }

  /** A window read to its end covers everything from its oldest bound to the seeded one. */
  lemma WindowReadCovers(cfg: Config, s: State, p: Payload)
    requires Bounded(p) && s.seeded.Some? && AboveFetched(cfg, s.fetched, s.seeded.value, p.latest.value)
    requires forall m :: m in WindowOf(cfg, p) ==> m in s.fetched
    ensures CoversFrom(cfg, s, p.oldest.value)
  {
    forall m | m in cfg.history && p.oldest.value <= m <= s.seeded.value ensures m in s.fetched {
      ListingExact(cfg.history, p.oldest.value, p.latest.value, m);
    }
  }

  lemma PageKeeps(cfg: Config, s: State, w: nat, count: nat)
    requires Inv(cfg, s) && Enabled(cfg, s, ReadPage(w, count))
    ensures Inv(cfg, ApplyPage(cfg, s, w, count))
  {
    var s2 := ApplyPage(cfg, s, w, count);
    var p := s.workers[w].payload;
    var p2 := s2.workers[w].payload;
    var window := WindowOf(cfg, p);
    var end := Offset(p) + count;
    forall i | 0 <= i < end ensures window[i] in s2.fetched {
      if i >= Offset(p) {
        assert window[i] == window[Offset(p)..end][i - Offset(p)];
      }
    }
    GoodGrows(cfg, s.fetched, s2.fetched, s.seeded, p);
    if s2.workers[w].done {
      WindowReadCovers(cfg, s2, p2);
    }
    forall v | v in s2.workers ensures WorkerInv(cfg, s2, v) {
      if v != w {
        assert WorkerInv(cfg, s, v);
        GoodGrows(cfg, s.fetched, s2.fetched, s.seeded, s.workers[v].payload);
      }
    }
    GoodGrows(cfg, s.fetched, s2.fetched, s.seeded, s.jobs[KEY].payload);
  }

  /** A completed window's oldest bound can serve as the latest bound of the next one. */
  lemma WidenKeeps(cfg: Config, s: State, oldest: Option<Time>, lookback: int)
    requires Inv(cfg, s) && !cfg.widenSkipped && Enabled(cfg, s, WidenJob(oldest, lookback))
    ensures Inv(cfg, Apply(cfg, s, WidenJob(oldest, lookback)))
  {
    var s2 := Apply(cfg, s, WidenJob(oldest, lookback));
    forall w | w in s2.workers ensures WorkerInv(cfg, s2, w) {
      assert WorkerInv(cfg, s, w);
    }
  }

  lemma StepKeeps(cfg: Config, s: State, step: Step)
    requires Inv(cfg, s) && !cfg.widenSkipped && Enabled(cfg, s, step)
    ensures Inv(cfg, Apply(cfg, s, step))
  {
    var s2 := Apply(cfg, s, step);
    match step
    case ReadPage(w, count) => PageKeeps(cfg, s, w, count);
    case WidenJob(oldest, lookback) => WidenKeeps(cfg, s, oldest, lookback);
    case ClaimJob(_, _) => WorkersKept(cfg, s, s2);
    case Requeue(w) =>
      assert WorkerInv(cfg, s, w);
      WorkersKept(cfg, s, s2);
    case Complete(w) =>
      assert WorkerInv(cfg, s, w);
      WorkersKept(cfg, s, s2);
    case _ => WorkersKept(cfg, s, s2);
  }

  /** Steps that fetch nothing leave every worker's promise as it was. */
  lemma WorkersKept(cfg: Config, s: State, s2: State)
    requires Inv(cfg, s) && s2.fetched == s.fetched
    requires s2.seeded == s.seeded || s.workers == map[]
    ensures forall w :: w in s2.workers && w in s.workers && s2.workers[w] == s.workers[w] ==> WorkerInv(cfg, s2, w)
  {
    forall w | w in s2.workers && w in s.workers && s2.workers[w] == s.workers[w] ensures WorkerInv(cfg, s2, w) {
      assert WorkerInv(cfg, s, w);
    }
  }

  lemma RunKeeps(cfg: Config, s: State, steps: seq<Step>)
    requires Inv(cfg, s) && !cfg.widenSkipped && Run(Machine(cfg), s, steps).Some?
    ensures Inv(cfg, Run(Machine(cfg), s, steps).value)
  {
    var inv := (s: State) => Inv(cfg, s);
    forall s, step | inv(s) && Enabled(cfg, s, step) ensures inv(Apply(cfg, s, step)) {
      StepKeeps(cfg, s, step);
    }
    Runs.RunKeeps(Machine(cfg), inv, s, steps);
  }

  predicate Initial(s: State) { s == State(map[], {}, map[], None, None) }

  ghost predicate Reachable(cfg: Config, s: State) { Runs.Reachable(Machine(cfg), Initial, s) }

  /** A completed, unskipped bootstrap job has fetched everything from its recorded oldest bound on. */
  ghost predicate Covered(cfg: Config, s: State) {
    KEY in s.jobs && s.jobs[KEY].status.Completed? && !s.jobs[KEY].payload.skipped ==>
      s.jobs[KEY].payload.oldest.Some? && CoversFrom(cfg, s, s.jobs[KEY].payload.oldest.value)
  }

  /**
   * On every channel with a message, completion means coverage over all runs exactly when a terminally
   * skipped job is never widened.
   */
  lemma CoverageExactly(cfg: Config)
    requires cfg.history != []
    ensures (forall s :: Reachable(cfg, s) ==> Covered(cfg, s)) <==> !cfg.widenSkipped
  {
    if !cfg.widenSkipped {
      forall s | Reachable(cfg, s) ensures Covered(cfg, s) {
        var s0: State, steps: seq<Step> :| Initial(s0) && Run(Machine(cfg), s0, steps) == Some(s);
        RunKeeps(cfg, s0, steps);
      }
    } else {
      var s := SkippedThenWidened(cfg);
      assert !Covered(cfg, s);
    }
  }

  /** The window above the first message is skipped, the job widened below it, and the rest read. */
  lemma SkippedThenWidened(cfg: Config) returns (s: State)
    requires cfg.history != [] && cfg.widenSkipped
    ensures Reachable(cfg, s) && !Covered(cfg, s)
  {
    var m := cfg.history[0];
    var p := Payload(None, Some(m - 2), Some(m - 1), 1, "", false);
    s := WidenedAt(cfg, m);
    s := Extend(Machine(cfg), Initial, s, ClaimJob(0, 0));
    s := Extend(Machine(cfg), Initial, s, ReadPage(0, |WindowOf(cfg, p)|));
    ListingExact(cfg.history, m - 2, m - 1, m);
    s := Extend(Machine(cfg), Initial, s, Complete(0));
    assert m in cfg.history;
  }

  lemma WidenedAt(cfg: Config, m: Time) returns (s: State)
    requires cfg.widenSkipped
    ensures Reachable(cfg, s)
    ensures s.jobs.Keys == {KEY} && s.fetched == {} && s.workers == map[] && s.seeded == Some(m)
    ensures s.jobs[KEY].status.Pending? && s.jobs[KEY].payload == Payload(None, Some(m - 2), Some(m - 1), 1, "", false)
  {
    s := SkippedAt(cfg, m);
    s := Extend(Machine(cfg), Initial, s, WidenJob(Some(m - 2), 1));
  }

  lemma SkippedAt(cfg: Config, m: Time) returns (s: State)
    ensures Reachable(cfg, s)
    ensures s.jobs.Keys == {KEY} && s.fetched == {} && s.workers == map[] && s.seeded == Some(m)
    ensures s.jobs[KEY].jobType.Bootstrap? && s.jobs[KEY].status.Completed?
    ensures s.jobs[KEY].payload == Payload(None, Some(m - 1), Some(m), 0, "", true)
  {
    s := State(map[], {}, map[], None, None);
    Begin(Machine(cfg), Initial, s);
    s := Extend(Machine(cfg), Initial, s, SeedJob(Some(m - 1), Some(m), 0));
    s := Extend(Machine(cfg), Initial, s, ClaimJob(0, 0));
    s := Extend(Machine(cfg), Initial, s, Skip(0));
  }

  // ---- The requested bound -----------------------------------------------------------------------

  /** The job's recorded oldest bound is the one last asked for. */
  predicate Recorded(s: State) { KEY in s.jobs ==> s.jobs[KEY].payload.oldest == s.asked }

  ghost predicate ExclusiveInv(s: State) {
    && Recorded(s) && (KEY in s.jobs ==> s.jobs[KEY].jobType.Bootstrap?)
    && (forall v, w :: v in s.workers && w in s.workers ==> v == w)
    && (forall w :: w in s.workers ==>
          KEY in s.jobs && s.jobs[KEY].status.Running? && s.workers[w].payload.oldest == s.asked)
  }

  lemma StepRecords(cfg: Config, s: State, step: Step)
    requires cfg.exclusive && ExclusiveInv(s) && Enabled(cfg, s, step)
    ensures ExclusiveInv(Apply(cfg, s, step))
  {}

  /** Over all runs the recorded bound is the one last asked for exactly when a held job is never claimed again. */
  lemma RecordedExactly(cfg: Config)
    ensures (forall s :: Reachable(cfg, s) ==> Recorded(s)) <==> cfg.exclusive
  {
    if cfg.exclusive {
      var inv := (s: State) => ExclusiveInv(s);
      forall s, step | inv(s) && Enabled(cfg, s, step) ensures inv(Apply(cfg, s, step)) {
        StepRecords(cfg, s, step);
      }
      forall s | Reachable(cfg, s) ensures Recorded(s) {
        ReachableKeeps(Machine(cfg), Initial, inv, s);
      }
    } else {
      var s := WideningUndone(cfg);
      assert !Recorded(s);
    }
  }

  /** So a completed, unskipped job has then fetched everything from the bound last asked for to the seeded one. */
  lemma CoversWhatWasAsked(cfg: Config, s: State)
    requires !cfg.widenSkipped && cfg.exclusive && Reachable(cfg, s) && KEY in s.jobs
    requires s.jobs[KEY].status.Completed? && !s.jobs[KEY].payload.skipped
    ensures s.asked.Some? && s.seeded.Some?
    ensures forall m :: m in cfg.history && s.asked.value <= m <= s.seeded.value ==> m in s.fetched
  {
    RecordedExactly(cfg);
    var s0: State, steps: seq<Step> :| Initial(s0) && Run(Machine(cfg), s0, steps) == Some(s);
    RunKeeps(cfg, s0, steps);
  }

  /** Two workers hold the job; one completes it, it is widened, and the other completes it with the old window. */
  lemma WideningUndone(cfg: Config) returns (s: State)
    requires !cfg.exclusive
    ensures Reachable(cfg, s) && !Recorded(s)
  {
    var p := Payload(None, Some(1), Some(2), 0, "", false);
    s := HeldTwice(cfg);
    s := Extend(Machine(cfg), Initial, s, ReadPage(1, |WindowOf(cfg, p)|));
    s := Extend(Machine(cfg), Initial, s, Complete(1));
    s := Extend(Machine(cfg), Initial, s, WidenJob(Some(0), 1));
    s := FinishOld(cfg, s);
  }

  lemma FinishOld(cfg: Config, start: State) returns (s: State)
    requires Reachable(cfg, start) && start.workers == map[0 := Worker(Payload(None, Some(1), Some(2), 0, "", false), false, false)]
    requires KEY in start.jobs && start.asked == Some(0)
    ensures Reachable(cfg, s) && !Recorded(s)
  {
    var p := Payload(None, Some(1), Some(2), 0, "", false);
    s := Extend(Machine(cfg), Initial, start, ReadPage(0, |WindowOf(cfg, p)|));
    s := Extend(Machine(cfg), Initial, s, Complete(0));
  }

  lemma HeldTwice(cfg: Config) returns (s: State)
    requires !cfg.exclusive
    ensures Reachable(cfg, s) && s.jobs.Keys == {KEY} && s.jobs[KEY].jobType.Bootstrap? && s.jobs[KEY].status.Running?
    ensures
      var w := Worker(Payload(None, Some(1), Some(2), 0, "", false), false, false);
      s.jobs[KEY].payload == w.payload && s.workers == map[0 := w, 1 := w]
  {
    s := State(map[], {}, map[], None, None);
    Begin(Machine(cfg), Initial, s);
    s := Extend(Machine(cfg), Initial, s, SeedJob(Some(1), Some(2), 0));
    s := Extend(Machine(cfg), Initial, s, ClaimJob(0, 0));
    s := Extend(Machine(cfg), Initial, s, ClaimJob(1, 0));
  }

  // ---- The worker's own loop -------------------------------------------------------------------

  /** The state after worker `w`, now as `me`, has fetched up to `fetched`, everything else as in `s`. */
  function Drained(s: State, fetched: set<Time>, w: nat, me: Worker): State {
    s.(fetched := fetched, workers := s.workers[w := me])
  }

  function PageRead(cfg: Config, me: Worker, count: nat): Worker
    requires Bounded(me.payload)
  {
    var next := NextCursor(cfg, me.payload, count);
    Worker(NextPayload(me.payload, next), true, next.None?)
  }

  lemma PageEffect(cfg: Config, s: State, fetched: set<Time>, w: nat, me: Worker, count: nat)
    requires !me.done && Bounded(me.payload) && Offset(me.payload) + count <= |WindowOf(cfg, me.payload)|
    ensures Enabled(cfg, Drained(s, fetched, w, me), ReadPage(w, count))
    ensures
      var at := Offset(me.payload);
      Apply(cfg, Drained(s, fetched, w, me), ReadPage(w, count))
      == Drained(s, fetched + Elements(WindowOf(cfg, me.payload)[at..at + count]), w, PageRead(cfg, me, count))
  {
    var after := PageRead(cfg, me, count);
    assert s.workers[w := me][w := after] == s.workers[w := after];
  }

  /**
   * `steps` fetched positions `from` to `at` of the window for worker `w`, now as `me`, and did nothing else;
   * `now` is all that has been fetched.
   */
  ghost predicate Draining(cfg: Config, s: State, steps: seq<Step>, w: nat, me: Worker,
                           window: seq<Time>, from: nat, at: nat, now: set<Time>) {
    && from <= at <= |window| && now == s.fetched + Elements(window[from..at])
    && Run(Machine(cfg), s, steps) == Some(Drained(s, now, w, me))
  }

  lemma StartDraining(cfg: Config, s: State, w: nat, window: seq<Time>, at: nat)
    requires w in s.workers && at <= |window|
    ensures Draining(cfg, s, [], w, s.workers[w], window, at, at, s.fetched)
  {
    assert Drained(s, s.fetched, w, s.workers[w]) == s;
  }

  lemma DrainStep(cfg: Config, s: State, steps: seq<Step>, w: nat, me: Worker,
                  window: seq<Time>, from: nat, at: nat, now: set<Time>, count: nat)
    requires !me.done && Bounded(me.payload) && window == WindowOf(cfg, me.payload)
    requires at == Offset(me.payload) && at + count <= |window|
    requires Draining(cfg, s, steps, w, me, window, from, at, now)
    ensures Draining(cfg, s, steps + [ReadPage(w, count)], w, PageRead(cfg, me, count), window, from, at + count,
                     now + Elements(window[at..at + count]))
  {
    PageEffect(cfg, s, now, w, me, count);
    ElementsSplit(s.fetched, window, from, at, at + count);
    RunSnoc(Machine(cfg), s, steps, Drained(s, now, w, me), ReadPage(w, count));
  }

  lemma ElementsSplit(base: set<Time>, window: seq<Time>, a: nat, b: nat, c: nat)
    requires a <= b <= c <= |window|
    ensures base + Elements(window[a..b]) + Elements(window[b..c]) == base + Elements(window[a..c])
  {
    assert window[a..c] == window[a..b] + window[b..c];
  }

  /**
   * The channel-drain loop of `handler`: read pages of at most `limit` messages until the window ends or
   * the page budget is spent. The result is the payload to requeue (it has a cursor) or to complete with.
   * The loop is a run of the protocol by worker `w`, and it reads exactly the next stretch of the window.
   */
  method DrainChannel(cfg: Config, start: Payload, limit: nat, budget: nat, fetched: set<Time>,
                      ghost w: nat, ghost s: State)
    returns (payload: Payload, now: set<Time>, pages: nat, ghost steps: seq<Step>, ghost after: State)
    requires limit > 0 && budget > 0 && Bounded(start) && Offset(start) <= |WindowOf(cfg, start)|
    requires w in s.workers && s.workers[w].payload == start && !s.workers[w].done && s.fetched == fetched
    ensures Run(Machine(cfg), s, steps) == Some(after) && |steps| == pages
    ensures after == Drained(s, now, w, Worker(payload, true, payload.cursor.None?))
    ensures 1 <= pages <= budget
    ensures payload.oldest == start.oldest && payload.latest == start.latest && payload.lookback == start.lookback
    ensures payload.cursor.Some? ==>
      && pages == budget
      && payload.cursor.value < |WindowOf(cfg, start)|
      && payload.cursor.value == Offset(start) + pages * limit
    ensures var end := if payload.cursor.Some? then payload.cursor.value else |WindowOf(cfg, start)|;
            now == fetched + Elements(WindowOf(cfg, start)[Offset(start)..end])
  {
    var window := WindowOf(cfg, start);
    payload, now, pages, steps := start, fetched, 0, [];
    var at := Offset(start);
    ghost var me, gone := s.workers[w], 0;
    StartDraining(cfg, s, w, window, at);
    while true
      invariant 0 <= pages < budget && |steps| == pages
      invariant payload.oldest == start.oldest && payload.latest == start.latest && payload.lookback == start.lookback
      invariant me.payload == payload && !me.done
      invariant Offset(start) <= at == Offset(payload) <= |window| && at == Offset(start) + gone && gone == pages * limit
      invariant Draining(cfg, s, steps, w, me, window, Offset(start), at, now)
      decreases budget - pages
    {
      var count := Min(limit, |window| - at);
      var next := NextCursor(cfg, payload, count);
      DrainStep(cfg, s, steps, w, me, window, Offset(start), at, now, count);
      OneMore(pages, limit);
      pages, gone := pages + 1, gone + limit;
      now := now + Elements(window[at..at + count]);
      steps := steps + [ReadPage(w, count)];
      payload := NextPayload(payload, next);
      me := PageRead(cfg, me, count);
      at := at + count;
      if next.None? || pages >= budget {
        after := Drained(s, now, w, me);
        return;
      }
    }
  }
}
