/**
 * How long an open event stream stays open (crates/centaur-api-server/src/api_clients.rs,
 * `api_client_read_access_ended`): the client is looked up again at least every thirty seconds until the token
 * expires. Times are in milliseconds; the clock the loop reads is in whole seconds.
 */
module EventStream {
  import opened Common
  import opened ApiScopes
  import opened ApiClients

  const INTERVAL := 30

  /** The token of the stream and what the database says when asked at a time. */
  datatype World = World(h: Hashes, fingerprint: string, granted: set<Capability>, lookup: nat -> Lookup)

  datatype Verdict = Allowed | Ended | Unknown

  /** What one check at time `t` concludes. */
  function Check(w: World, t: nat): (v: Verdict)
    ensures v == Unknown <==> w.lookup(t).Unavailable?
    ensures v == Allowed <==> MayRead(w, t)
  {
    var found := w.lookup(t);
    if found.Unavailable? then Unknown
    else if !Live(w.h, found.client, w.fingerprint) then Ended
    else if SessionsRead in w.granted * Capabilities(found.client.value.scopes) then Allowed
    else Ended
  }

  /** The client is enabled, has the token's secret, and grants and scopes both allow reading. */
  predicate MayRead(w: World, t: nat) {
    && w.lookup(t).Found? && Live(w.h, w.lookup(t).client, w.fingerprint)
    && SessionsRead in w.granted && SessionsRead in Capabilities(w.lookup(t).client.value.scopes)
  }

  /** In the database's and the token's own terms. */
  lemma MayReadExactly(w: World, t: nat, client: Client, scopes: seq<string>)
    requires w.lookup(t) == Found(Some(client)) && w.granted == Capabilities(scopes)
    ensures MayRead(w, t) <==>
      && !client.disabled && w.h.fingerprint(client.digest) == w.fingerprint
      && "sessions:read" in scopes && "sessions:read" in client.scopes
  {
    ScopesName(scopes);
    ScopesName(client.scopes);
  }

  /** From `r` on, every lookup succeeds and says that access has ended. */
  ghost predicate RevokedFrom(w: World, r: nat) {
    forall t :: r <= t ==> !MayRead(w, t) && w.lookup(t).Found?
  }

  /** Seconds left at `t`, as the loop computes them. */
  function Remaining(expires: int, t: nat): int { expires - t / 1000 }

  /** When the check after the one at `t` happens; `late` is what sleeping and looking up take beyond the sleep. */
  function NextCheck(expires: int, late: nat -> nat, t: nat): (next: nat)
    requires Remaining(expires, t) >= 1
    ensures next >= t + 1000 + late(t)
  {
    t + 1000 * Min(INTERVAL, Remaining(expires, t)) + late(t)
  }

  /** When the stream ends. */
  function EndsAt(w: World, expires: int, late: nat -> nat, t: nat): (end: nat)
    decreases 1000 * expires - t
  {
    if Remaining(expires, t) < 1 then t
    else
      SecondsLeft(expires, t);
      var next := NextCheck(expires, late, t);
      if Check(w, next) == Ended then next else EndsAt(w, expires, late, next)
  }

  lemma SecondsLeft(expires: int, t: nat)
    ensures Remaining(expires, t) >= 1 <==> t < 1000 * expires
    ensures t + 1000 * Remaining(expires, t) == 1000 * expires + t % 1000
  {}

  /** `api_client_read_access_ended`, with the times at which it wakes. */
  method ReadAccessEnded(w: World, expires: int, late: nat -> nat, start: nat) returns (end: nat)
    ensures end == EndsAt(w, expires, late, start)
  {
    end := start;
    while true
      invariant EndsAt(w, expires, late, end) == EndsAt(w, expires, late, start)
      decreases 1000 * expires - end
    {
      var remaining := Remaining(expires, end);
      SecondsLeft(expires, end);
      if remaining < 1 {
        return;
      }
      ghost var before := end;
      end := end + 1000 * Min(INTERVAL, remaining) + late(end);
      assert end == NextCheck(expires, late, before);
      var caller := new Caller(w.fingerprint, w.granted);
      var refused := caller.Refresh(w.h, w.lookup(end));
      if (refused.None? && SessionsRead !in caller.capabilities) || refused == Some(Unauthorized) {
        assert Check(w, end) == Ended;
        return;
      }
      assert refused.Some? ==> refused.value.Internal?;
      assert Check(w, end) != Ended;
      assert EndsAt(w, expires, late, before) == EndsAt(w, expires, late, end);
    }
  }

  // ---- Bounds -----------------------------------------------------------------------------------------------

  ghost predicate LateBy(late: nat -> nat, d: nat) { forall t :: late(t) <= d }

  /** The stream never outlives the token by more than the part of a second the clock drops, plus lateness. */
  lemma {:induction false} EndsWithToken(w: World, expires: int, late: nat -> nat, d: nat, t: nat)
    requires LateBy(late, d) && t < 1000 * expires
    ensures EndsAt(w, expires, late, t) < 1000 * expires + 1000 + d
    decreases 1000 * expires - t
  {
    SecondsLeft(expires, t);
    var next := NextCheck(expires, late, t);
    assert next <= t + 1000 * Remaining(expires, t) + late(t);
    if next < 1000 * expires {
      EndsWithToken(w, expires, late, d, next);
    } else {
      SecondsLeft(expires, next);
    }
  }

  /** A revocation that lasts is noticed within thirty seconds, plus lateness. */
  lemma {:induction false} EndsAfterRevocation(w: World, expires: int, late: nat -> nat, d: nat, t: nat, r: nat)
    requires LateBy(late, d) && RevokedFrom(w, r)
    ensures EndsAt(w, expires, late, t) <= Max(r, t) + 30000 + d
    decreases 1000 * expires - t
  {
    SecondsLeft(expires, t);
    if Remaining(expires, t) >= 1 {
      var next := NextCheck(expires, late, t);
      assert next <= t + 1000 * INTERVAL + d;
      if r <= next {
        assert Check(w, next) == Ended;
      } else {
        EndsAfterRevocation(w, expires, late, d, next, r);
      }
    }
  }

  /** It ends before the token expires only when a check said so: failed lookups change nothing. */
  lemma {:induction false} EndsEarlyOnlyIfEnded(w: World, expires: int, late: nat -> nat, t: nat)
    ensures var end := EndsAt(w, expires, late, t);
            end < 1000 * expires ==> Check(w, end) == Ended && t < end
    decreases 1000 * expires - t
  {
    SecondsLeft(expires, t);
    if Remaining(expires, t) >= 1 {
      var next := NextCheck(expires, late, t);
      if Check(w, next) != Ended {
        EndsEarlyOnlyIfEnded(w, expires, late, next);
      }
    }
  }

  ghost predicate NeverEnded(w: World) { forall t :: Check(w, t) != Ended }

  /** With prompt wake-ups and no revocation, the stream ends at the expiry plus the dropped fraction, exactly. */
  lemma {:induction false} EndsExactly(w: World, expires: int, late: nat -> nat, t: nat)
    requires LateBy(late, 0) && t < 1000 * expires
    ensures EndsAt(w, expires, late, t) <= 1000 * expires + t % 1000
    ensures NeverEnded(w) ==> EndsAt(w, expires, late, t) == 1000 * expires + t % 1000
    decreases 1000 * expires - t
  {
    SecondsLeft(expires, t);
    var wait := Min(INTERVAL, Remaining(expires, t));
    var next := NextCheck(expires, late, t);
    assert next == t + 1000 * wait;
    SameFraction(t, wait);
    SecondsLeft(expires, next);
    if next < 1000 * expires {
      EndsExactly(w, expires, late, next);
    } else {
      ThatIsLast(expires, t, wait, next);
    }
  }

  lemma SameFraction(t: nat, wait: nat)
    ensures (t + 1000 * wait) % 1000 == t % 1000
  {}

  lemma ThatIsLast(expires: int, t: nat, wait: int, next: nat)
    requires 1 <= wait <= Remaining(expires, t) && next == t + 1000 * wait && next >= 1000 * expires
    ensures next == 1000 * expires + t % 1000
  {
    SecondsLeft(expires, t);
  }

  /**
   * Even with prompt wake-ups, a stream opened before its token expires is sure to end by the expiry exactly
   * when it was opened on a whole second.
   */
  lemma OnTimeExactly(expires: int, late: nat -> nat, start: nat)
    requires LateBy(late, 0) && start < 1000 * expires
    ensures (forall w :: EndsAt(w, expires, late, start) <= 1000 * expires) <==> start % 1000 == 0
  {
    forall w: World ensures EndsAt(w, expires, late, start) <= 1000 * expires + start % 1000 {
      EndsExactly(w, expires, late, start);
    }
    var h := Hashes(s => s, s => s);
    var always := World(h, "", {}, t => Unavailable);
    EndsExactly(always, expires, late, start);
  }
}
