/**
 * Google Calendar sync of one calendar (workflows/gsuite/calendar_sync.py, the per-calendar part of `handler`
 * and the checkpoint updates). The server is a log of event changes: change `i` made `log[i]` what it then was.
 * Times and sync tokens are positions in that log, and a stored row is the number of the change it shows.
 */
module CalendarSync {
  import opened Common
  import Runs

  type EventId = string
  type Log = seq<EventId>
  type Table = map<EventId, nat>

  /** An event as listed: the change it shows and its `updated` field. */
  datatype Item = Item(id: EventId, change: nat, updated: Option<int>)

  /** The table agrees with, or is ahead of, the server as it was at position `n`. */
  ghost predicate FreshTo(log: Log, n: nat, table: Table) {
    forall i :: 0 <= i < n <= |log| ==> log[i] in table && table[log[i]] >= i
  }

  /** What a listing opened at `start` may say of an event at `now`: no older than it was at `start`. */
  ghost predicate Current(log: Log, start: nat, now: nat, item: Item) {
    && item.change < now <= |log| && log[item.change] == item.id
    && forall i :: 0 <= i < start <= |log| && log[i] == item.id ==> i <= item.change
  }

  /** The stored checkpoint is never ahead of the table. */
  ghost predicate Safe(log: Log, now: nat, table: Table, token: Option<nat>) {
    token.Some? ==> token.value <= now && FreshTo(log, token.value, table)
  }

  /** Writing what a later listing says spoils nothing that was fresh before it. */
  lemma UpsertKeepsFresh(log: Log, n: nat, table: Table, start: nat, now: nat, item: Item)
    requires n <= start <= |log| && FreshTo(log, n, table) && Current(log, start, now, item)
    ensures FreshTo(log, n, table[item.id := item.change])
  {}

  // ---- Runs over one calendar, statement by statement --------------------------------------------------

  /** `seen`: the events written from the listing opened at `start` with `token`. */
  datatype Run = Run(token: Option<nat>, start: nat, seen: set<EventId>, retried: bool)

  datatype State = State(now: nat, table: Table, token: Option<nat>, runs: map<nat, Run>)

  datatype Step =
    | Change(now: nat)
    | Begin(r: nat, reset: bool)
    | Upsert(r: nat, item: Item)
    | Restart(r: nat)
    | Commit(r: nat, next: Option<nat>)
    | Fail(r: nat)

  function From(token: Option<nat>): nat { if token.Some? then token.value else 0 }

  /** The listing is finished: every event changed since its token was on some page. */
  ghost predicate Listed(log: Log, run: Run) {
    forall i :: From(run.token) <= i < run.start <= |log| ==> log[i] in run.seen
  }

  ghost predicate Enabled(log: Log, sequential: bool, s: State, step: Step) {
    match step
    case Change(now) => s.now <= now <= |log|
    case Begin(r, reset) => r !in s.runs && (sequential ==> s.runs == map[])
    case Upsert(r, item) => r in s.runs && Current(log, s.runs[r].start, s.now, item)
    case Restart(r) => r in s.runs && s.runs[r].token.Some? && !s.runs[r].retried
    case Commit(r, next) =>
      r in s.runs && Listed(log, s.runs[r]) && (next.Some? ==> next.value <= s.runs[r].start)
    case Fail(r) => r in s.runs
  }

  function Next(s: State, step: Step): State {
    match step
    case Change(now) => s.(now := now)
    case Begin(r, reset) => s.(runs := s.runs[r := Run(if reset then None else s.token, s.now, {}, false)])
    case Upsert(r, item) =>
      if r !in s.runs then s
      else s.(table := s.table[item.id := item.change],
              runs := s.runs[r := s.runs[r].(seen := s.runs[r].seen + {item.id})])
    case Restart(r) => s.(runs := s.runs[r := Run(None, s.now, {}, true)])
    case Commit(r, next) =>
      if r !in s.runs then s else s.(token := Coalesce(next, s.runs[r].token), runs := s.runs - {r})
    case Fail(r) => s.(runs := s.runs - {r})
  }

  /** A run takes the stored token unless it was told to reset, and stores the listing's new token, or its own without one. */
  lemma TokensMove(s: State, r: nat, reset: bool, next: Option<nat>)
    ensures Next(s, Begin(r, reset)).runs[r].token == if reset then None else s.token
    ensures Next(s, Begin(r, reset)).runs[r].start == s.now && Next(s, Begin(r, reset)).runs[r].seen == {}
    ensures Next(s, Restart(r)).runs[r].token == None && Next(s, Restart(r)).runs[r].start == s.now
    ensures Next(s, Restart(r)).runs[r].retried && !Next(s, Begin(r, reset)).runs[r].retried
    ensures r in s.runs ==> Next(s, Commit(r, next)).token == if next.Some? then next else s.runs[r].token
    ensures Next(s, Fail(r)).token == s.token && Next(s, Fail(r)).table == s.table
  {}

  ghost predicate Initial(log: Log, s: State) {
    s.now <= |log| && s.runs == map[] && Safe(log, s.now, s.table, s.token)
  }

  /** The machine whose runs are all histories of one calendar. */
  ghost function Machine(log: Log, sequential: bool): (State, Step) -> Option<State> {
    (s, step) => if Enabled(log, sequential, s, step) then Some(Next(s, step)) else None
  }

  ghost function Start(log: Log): State -> bool { s => Initial(log, s) }

  ghost predicate Reachable(log: Log, sequential: bool, s: State) {
    Runs.Reachable(Machine(log, sequential), Start(log), s)
  }

  /** What an open run knows of the table. */
  ghost predicate RunInv(log: Log, s: State, run: Run) {
    && run.start <= s.now && From(s.token) <= run.start
    && From(run.token) <= run.start && FreshTo(log, From(run.token), s.table)
    && forall i :: 0 <= i < run.start <= |log| && log[i] in run.seen ==> log[i] in s.table && s.table[log[i]] >= i
  }

  ghost predicate Inv(log: Log, s: State) {
    && s.now <= |log| && Safe(log, s.now, s.table, s.token)
    && (forall r :: r in s.runs ==> RunInv(log, s, s.runs[r]))
    && (forall r, q :: r in s.runs && q in s.runs ==> r == q)
  }

  /** A finished listing leaves the table fresh up to where the listing was opened. */
  lemma ListedIsFresh(log: Log, s: State, run: Run)
    requires RunInv(log, s, run) && Listed(log, run)
    ensures FreshTo(log, run.start, s.table)
  {}

  lemma StepKeeps(log: Log, s: State, step: Step)
    requires Inv(log, s) && Enabled(log, true, s, step)
    ensures Inv(log, Next(s, step))
  {
    match step
    case Change(now) =>
    case Begin(r, reset) =>
    case Upsert(r, item) =>
      UpsertKeepsFresh(log, From(s.token), s.table, s.runs[r].start, s.now, item);
      UpsertKeepsFresh(log, From(s.runs[r].token), s.table, s.runs[r].start, s.now, item);
    case Restart(r) =>
    case Commit(r, next) =>
      ListedIsFresh(log, s, s.runs[r]);
    case Fail(r) =>
  }

  lemma RunKeeps(log: Log, s: State)
    requires Reachable(log, true, s)
    ensures Inv(log, s)
  {
    var inv := (s: State) => Inv(log, s);
    forall s, step | inv(s) && Enabled(log, true, s, step) ensures inv(Next(s, step)) {
      StepKeeps(log, s, step);
    }
    Runs.ReachableKeeps(Machine(log, true), Start(log), inv, s);
  }

  /** The checkpoint is safe in everything reachable. */
  ghost predicate AlwaysSafe(sequential: bool) {
    forall log, s :: Reachable(log, sequential, s) ==> Safe(log, s.now, s.table, s.token)
  }

  /**
   * An event changes while run 0 is listing; run 1 lists it anew, stores the new version and commits; run 0
   * then writes the old version it had read, and fails. No run is left, and nothing will list the event again.
   */
  lemma Overtaken() returns (log: Log, s: State)
    ensures Reachable(log, false, s)
    ensures s.runs == map[] && !Safe(log, s.now, s.table, s.token)
  {
    log := ["e", "e"];
    s := State(1, map[], None, map[]);
    Runs.Begin(Machine(log, false), Start(log), s);
    s := Runs.Extend(Machine(log, false), Start(log), s, Begin(0, false));
    s := Runs.Extend(Machine(log, false), Start(log), s, Change(2));
    s := Runs.Extend(Machine(log, false), Start(log), s, Begin(1, false));
    s := OldAfterNew(log, s);
  }

  lemma OldAfterNew(log: Log, start: State) returns (s: State)
    requires log == ["e", "e"] && Reachable(log, false, start) && start.now == 2
    requires start.runs == map[0 := Run(None, 1, {}, false), 1 := Run(None, 2, {}, false)]
    ensures Reachable(log, false, s)
    ensures s.runs == map[] && !Safe(log, s.now, s.table, s.token)
  {
    s := Runs.Extend(Machine(log, false), Start(log), start, Upsert(1, Item("e", 1, None)));
    s := Runs.Extend(Machine(log, false), Start(log), s, Commit(1, Some(2)));
    s := Runs.Extend(Machine(log, false), Start(log), s, Upsert(0, Item("e", 0, None)));
    s := Runs.Extend(Machine(log, false), Start(log), s, Fail(0));
    assert s.table["e"] == 0 && log[1] == "e";
  }

  /** The stored token is safe over every history exactly when runs of one calendar do not overlap. */
  lemma SafeExactly(sequential: bool)
    ensures AlwaysSafe(sequential) <==> sequential
  {
    if sequential {
      forall log, s | Reachable(log, sequential, s) ensures Safe(log, s.now, s.table, s.token) {
        RunKeeps(log, s);
      }
    } else {
      var log, s := Overtaken();
    }
  }

  // ---- The code of one run -----------------------------------------------------------------------------

  /** One `list_events` call; the page token stands for the listing it continues and the page within it. */
  datatype Request = Request(token: Option<nat>, start: nat, page: nat, now: nat)

  datatype Response = Page(items: seq<Item>, more: bool, token: Option<nat>) | Gone | Error

  type Server = Request -> Response

  /** The pages read of one listing, one time per page; the last page announces no other. */
  ghost predicate ReadsThrough(log: Log, server: Server, token: Option<nat>, start: nat, times: seq<nat>) {
    && times != []
    && (forall j :: 0 <= j < |times| ==> start <= times[j] <= |log| && PageAt(server, token, start, times, j).Page?)
    && (forall j, k :: 0 <= j < k < |times| ==> times[j] <= times[k])
    && !PageAt(server, token, start, times, |times| - 1).more
  }

  function PageAt(server: Server, token: Option<nat>, start: nat, times: seq<nat>, j: nat): Response
    requires j < |times|
  {
    server(Request(token, start, j, times[j]))
  }

  predicate OnPage(response: Response, id: EventId) {
    response.Page? && exists item :: item in response.items && item.id == id
  }

  /** Some page of the listing names the event. */
  ghost predicate OnSomePage(server: Server, token: Option<nat>, start: nat, times: seq<nat>, id: EventId) {
    exists j :: 0 <= j < |times| && OnPage(PageAt(server, token, start, times, j), id)
  }

  ghost predicate Covers(log: Log, server: Server, token: Option<nat>, start: nat, times: seq<nat>) {
    forall i :: From(token) <= i < start <= |log| ==> OnSomePage(server, token, start, times, log[i])
  }

  ghost predicate Answers(log: Log, size: (Option<nat>, nat) -> nat, request: Request, response: Response) {
    response.Page? ==>
      && (forall item :: item in response.items && item.id != "" ==> Current(log, request.start, request.now, item))
      && (response.more ==> request.page + 1 < size(request.token, request.start))
      && (response.token.Some? ==> response.token.value <= request.start)
  }

  /**
   * A listing has finitely many pages and, once read to the end, has named every event changed between its
   * token and its opening; the new token it gives is no later than its opening.
   */
  ghost predicate Conforms(log: Log, server: Server, size: (Option<nat>, nat) -> nat) {
    && (forall i :: 0 <= i < |log| ==> log[i] != "")
    && (forall request: Request :: request.start <= request.now <= |log| ==> Answers(log, size, request, server(request)))
    && (forall token, start, times :: ReadsThrough(log, server, token, start, times)
                                      ==> Covers(log, server, token, start, times))
  }

  function WriteAll(table: Table, items: seq<Item>): Table {
    if items == [] then table
    else WriteAll(table, items[..|items| - 1])[items[|items| - 1].id := items[|items| - 1].change]
  }

  function LatestUpdate(items: seq<Item>): (r: Option<int>)
    ensures r.None? <==> forall item :: item in items ==> item.updated.None?
    ensures r.Some? ==> exists item :: item in items && item.updated == r
    ensures forall item :: item in items && item.updated.Some? ==> r.Some? && item.updated.value <= r.value
  {
    if items == [] then None
    else
      var rest, item := LatestUpdate(items[..|items| - 1]), items[|items| - 1];
      assert items == items[..|items| - 1] + [item];
      if item.updated.Some? && (rest.None? || item.updated.value > rest.value) then item.updated else rest
  }

  lemma {:induction false} WriteAllThen(table: Table, a: seq<Item>, b: seq<Item>)
    ensures WriteAll(WriteAll(table, a), b) == WriteAll(table, a + b)
  {
    if b == [] {
      assert a + b == a;
    } else {
      WriteAllThen(table, a, b[..|b| - 1]);
      assert (a + b)[..|a + b| - 1] == a + b[..|b| - 1];
    }
  }

  ghost predicate PageWritten(response: Response, seen: set<EventId>) {
    response.Page? && forall item :: item in response.items && item.id != "" ==> item.id in seen
  }

  /** The pages read so far of the open listing: all announced another page, and all were written. */
  ghost predicate Progress(log: Log, server: Server, run: Run, times: seq<nat>, now: nat) {
    && (forall j :: 0 <= j < |times| ==>
          run.start <= times[j] <= now && PageWritten(PageAt(server, run.token, run.start, times, j), run.seen))
    && (forall j, k :: 0 <= j < k < |times| ==> times[j] <= times[k])
  }

  /** The open listing `run` has been written as far as `run.seen`, and the stored token is safe. */
  ghost predicate Writing(log: Log, now: nat, table: Table, token: Option<nat>, run: Run) {
    RunInv(log, State(now, table, token, map[]), run) && Safe(log, run.start, table, token)
  }

  lemma WriteOne(log: Log, now: nat, table: Table, token: Option<nat>, run: Run, item: Item)
    requires Writing(log, now, table, token, run) && now <= |log| && Current(log, run.start, now, item)
    ensures Writing(log, now, table[item.id := item.change], token, run.(seen := run.seen + {item.id}))
  {
    UpsertKeepsFresh(log, From(token), table, run.start, now, item);
    UpsertKeepsFresh(log, From(run.token), table, run.start, now, item);
  }

  lemma WriteAllNext(table: Table, items: seq<Item>, item: Item)
    ensures WriteAll(table, items + [item]) == WriteAll(table, items)[item.id := item.change]
  {
    assert (items + [item])[..|items|] == items;
  }

  /** Everything the loop knows between two calls; `now` is the time of the next call. */
  ghost predicate Reading(log: Log, server: Server, table: Table, token: Option<nat>, run: Run, times: seq<nat>, now: nat) {
    Progress(log, server, run, times, now) && Writing(log, now, table, token, run)
  }

  lemma OpenListing(log: Log, server: Server, table: Table, token: Option<nat>, run: Run, now: nat)
    requires run.seen == {} && run.start == now && (run.token.None? || run.token == token)
    requires Safe(log, now, table, token)
    ensures Reading(log, server, table, token, run, [], now)
  {}

  /** The page just stored joins the pages read. */
  lemma ReadOn(log: Log, server: Server, table: Table, token: Option<nat>, run: Run, times: seq<nat>, now: nat,
               seen: set<EventId>, later: nat)
    requires Progress(log, server, run, times, now) && now <= later && run.seen <= seen
    requires Writing(log, now, table, token, run.(seen := seen))
    requires PageWritten(server(Request(run.token, run.start, |times|, now)), seen)
    ensures Reading(log, server, table, token, run.(seen := seen), times + [now], later)
  {
    var more, longer := run.(seen := seen), times + [now];
    forall j | 0 <= j < |longer|
      ensures run.start <= longer[j] <= later && PageWritten(PageAt(server, run.token, run.start, longer, j), seen)
    {
      if j < |times| {
        assert PageWritten(PageAt(server, run.token, run.start, times, j), run.seen);
      }
    }
  }

  /** A listing read to its end: the table is fresh up to its opening, and so is the token to store. */
  lemma EndIsFresh(log: Log, server: Server, size: (Option<nat>, nat) -> nat, table: Table, token: Option<nat>,
                   run: Run, times: seq<nat>, now: nat)
    requires Conforms(log, server, size) && Reading(log, server, table, token, run, times, now) && now <= |log|
    requires times != [] && !PageAt(server, run.token, run.start, times, |times| - 1).more
    ensures FreshTo(log, run.start, table)
  {
    assert ReadsThrough(log, server, run.token, run.start, times);
    assert Covers(log, server, run.token, run.start, times);
    forall i | From(run.token) <= i < run.start <= |log| ensures log[i] in run.seen {
      assert OnSomePage(server, run.token, run.start, times, log[i]);
      var j :| 0 <= j < |times| && OnPage(PageAt(server, run.token, run.start, times, j), log[i]);
      assert PageWritten(PageAt(server, run.token, run.start, times, j), run.seen);
    }
    ListedIsFresh(log, State(now, table, token, map[]), run);
  }

  class Calendar {
    var table: Table
    var token: Option<nat>
    var watermark: Option<int>

    /** One page of events; `luck` upserts succeed before one raises, all of them when None. */
    method StorePage(items: seq<Item>, luck: Option<nat>, ghost log: Log, ghost now: nat, ghost run: Run)
      returns (ok: bool, rest: Option<nat>, written: seq<Item>, ghost seen: set<EventId>)
      requires forall item :: item in items && item.id != "" ==> Current(log, run.start, now, item)
      requires now <= |log| && Writing(log, now, table, token, run)
      modifies this`table
      ensures Writing(log, now, table, token, run.(seen := seen))
      ensures run.seen <= seen && table == WriteAll(old(table), written)
      ensures ok ==> forall item :: item in items && item.id != "" ==> item.id in seen
      ensures luck.None? ==> ok && rest.None?
      ensures forall item :: item in written ==> item in items
    {
      rest, written, seen := luck, [], run.seen;
      for n := 0 to |items|
        invariant Writing(log, now, table, token, run.(seen := seen))
        invariant run.seen <= seen && table == WriteAll(old(table), written)
        invariant forall item :: item in items[..n] && item.id != "" ==> item.id in seen
        invariant luck.None? ==> rest.None?
        invariant forall item :: item in written ==> item in items
      {
        var item := items[n];
        assert items[..n + 1] == items[..n] + [item];
        if item.id != "" {
          if rest == Some(0) {
            ok := false;
            return;
          }
          rest := if rest.Some? then Some(rest.value - 1) else None;
          WriteOne(log, now, table, token, run.(seen := seen), item);
          WriteAllNext(old(table), written, item);
          table := table[item.id := item.change];
          written, seen := written + [item], seen + {item.id};
        }
      }
      assert items[..|items|] == items;
      ok := true;
    }

    /** A page of the open listing, received at `now`; the next call comes at `later`. */
    method TakePage(response: Response, luck: Option<nat>, before: seq<Item>, ghost base: Table, ghost log: Log,
                    ghost server: Server, ghost run: Run, ghost times: seq<nat>, ghost now: nat, ghost later: nat)
      returns (ok: bool, rest: Option<nat>, written: seq<Item>, ghost seen: set<EventId>)
      requires response.Page? && response == server(Request(run.token, run.start, |times|, now))
      requires forall item :: item in response.items && item.id != "" ==> Current(log, run.start, now, item)
      requires now <= later && now <= |log| && Reading(log, server, table, token, run, times, now)
      requires table == WriteAll(base, before)
      modifies this`table
      ensures Safe(log, run.start, table, token) && table == WriteAll(base, written)
      ensures ok ==> Reading(log, server, table, token, run.(seen := seen), times + [now], later)
    {
      var more;
      ok, rest, more, seen := StorePage(response.items, luck, log, now, run);
      WriteAllThen(base, before, more);
      written := before + more;
      if ok {
        ReadOn(log, server, table, token, run, times, now, seen, later);
      }
    }

    /** The paging loop: what it writes, whether a call or an upsert raised, and the last request it made. */
    method ListEvents(reset: bool, server: Server, log: Log, began: nat, luck: Option<nat>,
                      ghost size: (Option<nat>, nat) -> nat)
      returns (ok: bool, restarts: nat, written: seq<Item>, now: nat, final: Request)
      requires Conforms(log, server, size) && began <= |log|
      requires Safe(log, began, table, token)
      modifies this`table
      ensures began <= final.start <= now <= |log| && Safe(log, final.start, table, token)
      ensures ok ==> server(final).Page? && !server(final).more && FreshTo(log, final.start, table)
      ensures final.start <= final.now <= |log| && final.token == if reset || restarts == 1 then None else token
      ensures restarts <= 1 && (restarts == 1 ==> !reset && token.Some?)
      ensures table == WriteAll(old(table), written)
    {
      now := Later(began, log);
      var rest := luck;
      var syncToken := if reset then None else token;
      var start, page := now, 0;
      ghost var run := Run(syncToken, start, {}, false);
      ghost var times: seq<nat> := [];
      ok, restarts, written := false, 0, [];
      OpenListing(log, server, table, token, run, start);
      while true
        invariant restarts <= 1 && (restarts == 1 ==> !reset && token.Some?)
        invariant run.token == syncToken && run.start == start && began <= start <= now <= |log|
        invariant syncToken == if reset || restarts == 1 then None else token
        invariant page == |times| && Reading(log, server, table, token, run, times, now)
        invariant table == WriteAll(old(table), written)
        decreases 1 - restarts, size(syncToken, start) - page
      {
        final := Request(syncToken, start, page, now);
        var response := server(final);
        if response.Gone? && syncToken.Some? && restarts == 0 {
          now := Later(now, log);
          syncToken, page, start, restarts := None, 0, now, 1;
          run, times := Run(None, start, {}, true), [];
          OpenListing(log, server, table, token, run, start);
          continue;
        }
        if !response.Page? {
          return;
        }
        assert Answers(log, size, final, response);
        ghost var received := now;
        now := Later(now, log);
        var stored;
        ghost var seen;
        stored, rest, written, seen :=
          TakePage(response, rest, written, old(table), log, server, run, times, received, now);
        if !stored {
          return;
        }
        run, times := run.(seen := seen), times + [received];
        if !response.more {
          break;
        }
        page := page + 1;
      }
      EndIsFresh(log, server, size, table, token, run, times, now);
      ok := true;
    }

    /**
     * One run over the calendar. Whatever fails and whenever, the stored token stays safe; a run that succeeds
     * leaves the table fresh up to the opening of its last listing, and it restarts at most once.
     */
    method SyncCalendar(reset: bool, server: Server, log: Log, began: nat, luck: Option<nat>,
                        ghost size: (Option<nat>, nat) -> nat)
      returns (ok: bool, restarts: nat, written: seq<Item>, now: nat, final: Request)
      requires Conforms(log, server, size) && began <= |log|
      requires Safe(log, began, table, token)
      modifies this
      ensures began <= final.start <= now <= |log| && Safe(log, now, table, token)
      ensures ok ==> FreshTo(log, final.start, table)
      ensures final.token == if reset || restarts == 1 then None else old(token)
      ensures ok ==> server(final).Page? && !server(final).more
      ensures ok ==> token == if server(final).token.Some? then server(final).token else final.token
      ensures restarts <= 1 && (restarts == 1 ==> !reset && old(token).Some?)
      ensures table == WriteAll(old(table), written)
      ensures !ok ==> token == old(token) && watermark == old(watermark)
      ensures ok ==> watermark == Coalesce(LatestUpdate(written), old(watermark))
    {
      ok, restarts, written, now, final := ListEvents(reset, server, log, began, luck, size);
      if ok {
        assert Answers(log, size, final, server(final));
        token := Coalesce(server(final).token, final.token);
        watermark := Coalesce(LatestUpdate(written), watermark);
      }
    }
  }

  /** The clock: any time that is no earlier. */
  method Later(now: nat, log: Log) returns (later: nat)
    requires now <= |log|
    ensures now <= later <= |log|
  {
    later :| now <= later <= |log|;
  }
}
