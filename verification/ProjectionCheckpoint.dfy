/**
 * One row of `company_context_projection_checkpoints` and the four SQL statements that read or
 * change it (workflows/company_context_documents.py, `_claim_scope`, `_read_owned_scope`,
 * `_advance_scope_cursor`, `_finish_scope_window`). Each statement is one atomic step.
 */
module ProjectionCheckpoint {
  import opened Common
  import opened KeysetPaging

  type Token = nat

  const LEASE_SECONDS := 20 * 60

  datatype Checkpoint = Checkpoint(
    watermark: Option<Time>,
    windowStart: Option<Time>,
    windowEnd: Option<Time>,
    cursorAt: Option<Time>,
    cursorKey: Key,
    leaseToken: Option<Token>,
    leaseExpires: Option<Time>)

  /** The coordinator's arguments; `hostNow` is its own clock reading, taken before the statement runs. */
  datatype ClaimRequest = ClaimRequest(
    seed: Option<Time>, overlap: nat, maxWindow: nat, hostNow: Time, token: Token)

  datatype ClaimResult = Raised | Busy | Claimed(row: Checkpoint)

  /** `_batch_until` */
  function BatchUntil(since: Option<Time>, now: Time, maxWindow: nat): Option<Time> {
    if since.None? then None else Some(Min(now, since.value + maxWindow))
  }

  /** Postgres LEAST over NOW() and a nullable operand: NULL is ignored. */
  function LeastNow(now: Time, other: Option<Time>): Time {
    if other.None? then now else Min(now, other.value)
  }

  function Minus(t: Option<Time>, d: nat): Option<Time> {
    if t.None? then None else Some(t.value - d)
  }

  function Plus(t: Option<Time>, d: nat): Option<Time> {
    if t.None? then None else Some(t.value + d)
  }

  /** The table's CHECK constraint. */
  predicate WindowCheck(c: Checkpoint) {
    c.windowEnd.None? || c.windowStart.None? || c.windowEnd.value >= c.windowStart.value
  }

  /** The row proposed by the INSERT of `_claim_scope`. */
  function Proposed(req: ClaimRequest, now: Time): Checkpoint {
    var start := Minus(req.seed, req.overlap);
    var end := BatchUntil(start, req.hostNow, req.maxWindow);
    Checkpoint(req.seed, start, Some(if end.Some? then end.value else req.hostNow),
               None, 0, Some(req.token), Some(now + LEASE_SECONDS))
  }

  /** The row written by ON CONFLICT DO UPDATE: an open window is kept, a closed one is replaced. */
  function Reclaimed(c: Checkpoint, req: ClaimRequest, now: Time): Checkpoint {
    var proposed := Proposed(req, now);
    if c.windowEnd.Some? then
      c.(leaseToken := proposed.leaseToken, leaseExpires := proposed.leaseExpires)
    else
      var start := Coalesce(Minus(c.watermark, req.overlap), proposed.windowStart);
      Checkpoint(Coalesce(c.watermark, proposed.watermark), start,
                 Some(LeastNow(now, Plus(start, req.maxWindow))),
                 None, 0, proposed.leaseToken, proposed.leaseExpires)
  }

  /** `_claim_scope`. A proposed or updated row that violates the CHECK constraint raises. */
  function Claim(row: Option<Checkpoint>, req: ClaimRequest, now: Time): (result: ClaimResult)
    ensures result.Claimed? ==>
      && result.row.leaseToken == Some(req.token)
      && result.row.windowEnd.Some?
      && result.row.leaseExpires == Some(now + LEASE_SECONDS)
    ensures result.Busy? <==>
      && WindowCheck(Proposed(req, now))
      && row.Some? && row.value.leaseExpires.Some? && row.value.leaseExpires.value >= now
  {
    if !WindowCheck(Proposed(req, now)) then Raised
    else if row.None? then Claimed(Proposed(req, now))
    else if row.value.leaseExpires.Some? && row.value.leaseExpires.value >= now then Busy
    else
      var updated := Reclaimed(row.value, req, now);
      if WindowCheck(updated) then Claimed(updated) else Raised
  }

  predicate OwnedBy(row: Option<Checkpoint>, token: Token) {
    row.Some? && row.value.leaseToken == Some(token)
  }

  /** `_read_owned_scope` */
  function ReadOwned(row: Option<Checkpoint>, token: Token, now: Time): Option<Checkpoint> {
    if OwnedBy(row, token) && row.value.leaseExpires.Some? && row.value.leaseExpires.value > now
    then row else None
  }

  /** `_finish_scope_window` */
  function Finish(row: Option<Checkpoint>, token: Token): Option<Checkpoint> {
    if OwnedBy(row, token)
    then Some(Checkpoint(row.value.windowEnd, None, None, None, 0, None, None))
    else row
  }

  /** `_advance_scope_cursor` */
  function Advance(row: Option<Checkpoint>, token: Token, cursor: Position, now: Time): Option<Checkpoint> {
    if OwnedBy(row, token)
    then Some(row.value.(cursorAt := Some(cursor.at), cursorKey := cursor.key,
                         leaseExpires := Some(now + LEASE_SECONDS)))
    else row
  }

  // ---- The statements, column by column --------------------------------------------------------------

  /** The first claim of a scope opens the window at the seed less the overlap, or without a start. */
  lemma FirstWindow(req: ClaimRequest, now: Time)
    ensures Claim(None, req, now).Raised? <==> req.seed.Some? && req.hostNow < req.seed.value - req.overlap
    ensures Claim(None, req, now).Claimed? ==>
      var row := Claim(None, req, now).row;
      && row.watermark == req.seed && row.cursorAt.None? && row.cursorKey == 0
      && (req.seed.None? ==> row.windowStart.None? && row.windowEnd == Some(req.hostNow))
      && (req.seed.Some? ==>
            && row.windowStart == Some(req.seed.value - req.overlap)
            && row.windowEnd == Some(Min(req.hostNow, req.seed.value - req.overlap + req.maxWindow)))
  {}

  /** Reclaiming an open window changes the lease and nothing else. */
  lemma OpenWindowKept(c: Checkpoint, req: ClaimRequest, now: Time)
    requires c.windowEnd.Some? && Claim(Some(c), req, now).Claimed?
    ensures
      var row := Claim(Some(c), req, now).row;
      && row.watermark == c.watermark && row.windowStart == c.windowStart && row.windowEnd == c.windowEnd
      && row.cursorAt == c.cursorAt && row.cursorKey == c.cursorKey
  {}

  /** A new window starts at the stored watermark less the overlap, or at the first window's start without one. */
  lemma NextWindow(c: Checkpoint, req: ClaimRequest, now: Time)
    requires c.windowEnd.None? && Claim(Some(c), req, now).Claimed?
    ensures
      var row := Claim(Some(c), req, now).row;
      var mark := if c.watermark.Some? then c.watermark else req.seed;
      && row.watermark == mark && row.cursorAt.None? && row.cursorKey == 0
      && (mark.None? ==> row.windowStart.None? && row.windowEnd == Some(now))
      && (mark.Some? ==>
            && row.windowStart == Some(mark.value - req.overlap)
            && row.windowEnd == Some(Min(now, mark.value - req.overlap + req.maxWindow)))
  {}

  /** A checkpoint is read under its own token while the lease lasts, and a read excludes any other claim. */
  lemma LeaseExcludes(c: Checkpoint, token: Token, req: ClaimRequest, now: Time)
    ensures ReadOwned(Some(c), token, now)
         == if c.leaseToken == Some(token) && c.leaseExpires.Some? && now < c.leaseExpires.value then Some(c) else None
    ensures ReadOwned(Some(c), token, now).Some? ==> !Claim(Some(c), req, now).Claimed?
  {}

  /** Storing a cursor renews the lease for twenty minutes and leaves the window alone; another token does nothing. */
  lemma AdvanceRenews(c: Checkpoint, token: Token, cursor: Position, now: Time, later: Time)
    ensures c.leaseToken != Some(token) ==> Advance(Some(c), token, cursor, now) == Some(c)
    ensures c.leaseToken == Some(token) ==>
      var row := Advance(Some(c), token, cursor, now);
      && row.Some? && row.value.cursorAt == Some(cursor.at) && row.value.cursorKey == cursor.key
      && row.value.watermark == c.watermark && row.value.windowStart == c.windowStart && row.value.windowEnd == c.windowEnd
      && (ReadOwned(row, token, later).Some? <==> later < now + 1200)
  {}

  /** Finishing makes the window's end the watermark, closes the window and gives the lease back. */
  lemma FinishCloses(c: Checkpoint, token: Token)
    ensures c.leaseToken != Some(token) ==> Finish(Some(c), token) == Some(c)
    ensures c.leaseToken == Some(token) ==>
      var row := Finish(Some(c), token);
      && row.Some? && row.value.watermark == c.windowEnd && row.value.windowEnd.None? && row.value.windowStart.None?
      && row.value.cursorAt.None? && row.value.leaseToken.None? && row.value.leaseExpires.None?
  {}

  function CursorOf(c: Checkpoint): Option<Position> {
    if c.cursorAt.None? then None else Some(Position(c.cursorAt.value, c.cursorKey))
  }
}
