/**
 * API clients over time (crates/centaur-api-server/src/api_clients.rs, `issue_token`, `refresh_api_client`,
 * `owns_thread_key`; token claims in auth.rs, the clock skew in api_jwt.rs): tokens are issued while an operator
 * edits scopes, rotates secrets, disables, enables and deletes clients.
 */
module ApiClients {
  import opened Common
  import opened ApiScopes
  import opened Runs

  /** The capabilities scopes can name; every other scope names none. */
  datatype Capability = SessionsRead | SessionsWrite

  function FromScope(scope: string): Option<Capability> {
    if scope == "sessions:read" then Some(SessionsRead)
    else if scope == "sessions:write" then Some(SessionsWrite)
    else None
  }

  function Capabilities(scopes: seq<string>): set<Capability> {
    set s | s in scopes && FromScope(s).Some? :: FromScope(s).value
  }

  /** Each capability is named by one scope and by no other. */
  lemma ScopesName(scopes: seq<string>)
    ensures SessionsRead in Capabilities(scopes) <==> "sessions:read" in scopes
    ensures SessionsWrite in Capabilities(scopes) <==> "sessions:write" in scopes
  {}

  datatype Client = Client(digest: string, scopes: seq<string>, disabled: bool)

  const TTL := 3600
  const SKEW := 30

  /** SHA-256 and the fingerprint derived from it, taken as free of collisions. */
  datatype Hashes = Hashes(digest: string -> string, fingerprint: string -> string)

  ghost predicate Injective(h: Hashes) {
    && (forall a, b :: h.digest(a) == h.digest(b) ==> a == b)
    && (forall a, b :: h.fingerprint(a) == h.fingerprint(b) ==> a == b)
  }

  // ---- refresh_api_client -----------------------------------------------------------------------------

  datatype Lookup = Found(client: Option<Client>) | Unavailable

  datatype Refusal = Unauthorized | Internal

  /** A token is good for this record. */
  predicate Live(h: Hashes, client: Option<Client>, fingerprint: string) {
    client.Some? && !client.value.disabled && h.fingerprint(client.value.digest) == fingerprint
  }

  class Caller {
    const fingerprint: string
    var capabilities: set<Capability>

    constructor (fingerprint: string, capabilities: set<Capability>)
      ensures this.fingerprint == fingerprint && this.capabilities == capabilities
    {
      this.fingerprint, this.capabilities := fingerprint, capabilities;
    }

    /** `refresh_api_client`: None is success. A refusal leaves the caller as it was. */
    method Refresh(h: Hashes, lookup: Lookup) returns (refused: Option<Refusal>)
      modifies this
      ensures refused.None? <==> lookup.Found? && Live(h, lookup.client, fingerprint)
      ensures refused == Some(Internal) <==> lookup.Unavailable?
      ensures refused.None? ==> capabilities == old(capabilities) * Capabilities(lookup.client.value.scopes)
      ensures refused.Some? ==> capabilities == old(capabilities)
      ensures refused.None? ==>
        && (SessionsRead in capabilities <==>
              SessionsRead in old(capabilities) && "sessions:read" in lookup.client.value.scopes)
        && (SessionsWrite in capabilities <==>
              SessionsWrite in old(capabilities) && "sessions:write" in lookup.client.value.scopes)
    {
      if lookup.Unavailable? {
        return Some(Internal);
      }
      if lookup.client.None? || lookup.client.value.disabled {
        return Some(Unauthorized);
      }
      var client := lookup.client.value;
      if h.fingerprint(client.digest) != fingerprint {
        return Some(Unauthorized);
      }
      var live: set<Capability> := {};
      for n := 0 to |client.scopes|
        invariant live == Capabilities(client.scopes[..n])
      {
        assert client.scopes[..n + 1] == client.scopes[..n] + [client.scopes[n]];
        var c := FromScope(client.scopes[n]);
        live := if c.Some? then live + {c.value} else live;
      }
      assert client.scopes[..|client.scopes|] == client.scopes;
      capabilities := set c | c in capabilities && c in live;
      ScopesName(client.scopes);
      return None;
    }
  }

  // ---- Histories -----------------------------------------------------------------------------------------

  /** The claims of an access token. */
  datatype Token = Token(client: string, fingerprint: string, scope: string, issued: int, expires: int)

  /** A token with the circumstances of its issue: the secret shown, the scopes the client had and was granted. */
  datatype Grant = Grant(token: Token, secret: string, allowed: seq<string>, scopes: seq<string>)

  /** `ids` and `digests` ever used: row ids are not reused and secrets are random. */
  datatype State = State(now: int, clients: map<string, Client>, ids: set<string>, digests: set<string>, grants: seq<Grant>)

  datatype Step =
    | Wait(now: int)
    | Create(id: string, secret: string, scopes: seq<string>)
    | EditScopes(id: string, scopes: seq<string>)
    | Rotate(id: string, secret: string)
    | SetDisabled(id: string, disabled: bool)
    | Delete(id: string)
    | Issue(id: string, secret: string, scope: Option<string>, granted: seq<string>)

  ghost predicate Enabled(h: Hashes, s: State, step: Step) {
    match step
    case Wait(now) => s.now <= now
    case Create(id, secret, scopes) => id !in s.ids && h.digest(secret) !in s.digests && AllWords(scopes)
    case EditScopes(id, scopes) => id in s.clients && AllWords(scopes)
    case Rotate(id, secret) => id in s.clients && h.digest(secret) !in s.digests
    case SetDisabled(id, disabled) => id in s.clients
    case Delete(id) => id in s.clients
    case Issue(id, secret, scope, granted) =>
      && id in s.clients && s.clients[id].digest == h.digest(secret) && !s.clients[id].disabled
      && IsGrant(s.clients[id].scopes, scope, Some(granted))
  }

  /** `mint_api_client_token` */
  function Mint(h: Hashes, client: Client, id: string, granted: seq<string>, now: int): Token {
    Token(id, h.fingerprint(client.digest), JoinWords(granted), now, now + TTL)
  }

  function Next(h: Hashes, s: State, step: Step): State {
    match step
    case Wait(now) => s.(now := now)
    case Create(id, secret, scopes) =>
      var d := h.digest(secret);
      s.(clients := s.clients[id := Client(d, scopes, false)], ids := s.ids + {id}, digests := s.digests + {d})
    case EditScopes(id, scopes) =>
      if id !in s.clients then s else s.(clients := s.clients[id := s.clients[id].(scopes := scopes)])
    case Rotate(id, secret) =>
      if id !in s.clients then s
      else
        var d := h.digest(secret);
        s.(clients := s.clients[id := s.clients[id].(digest := d)], digests := s.digests + {d})
    case SetDisabled(id, disabled) =>
      if id !in s.clients then s else s.(clients := s.clients[id := s.clients[id].(disabled := disabled)])
    case Delete(id) => s.(clients := s.clients - {id})
    case Issue(id, secret, scope, granted) =>
      if id !in s.clients then s
      else
        var c := s.clients[id];
        s.(grants := s.grants + [Grant(Mint(h, c, id, granted, s.now), secret, c.scopes, granted)])
  }

  predicate Initial(s: State) {
    s.clients == map[] && s.grants == []
  }

  /** The machine whose runs are all histories. */
  ghost function Machine(h: Hashes): (State, Step) -> Option<State> {
    (s, step) => if Enabled(h, s, step) then Some(Next(h, s, step)) else None
  }

  ghost predicate Reachable(h: Hashes, s: State) { Runs.Reachable(Machine(h), Initial, s) }

  /** The token passes verification and the refresh of its client. */
  predicate Accepted(h: Hashes, s: State, token: Token) {
    && s.now - SKEW <= token.expires && token.issued <= s.now + SKEW
    && token.client in s.clients && Live(h, Some(s.clients[token.client]), token.fingerprint)
  }

  /** What an accepted request may do. */
  function Powers(s: State, token: Token): set<Capability>
    requires token.client in s.clients
  {
    Capabilities(Words(token.scope)) * Capabilities(s.clients[token.client].scopes)
  }

  ghost predicate GrantInv(h: Hashes, s: State, g: Grant) {
    && g.token.client in s.ids && h.digest(g.secret) in s.digests
    && g.token.fingerprint == h.fingerprint(h.digest(g.secret))
    && Words(g.token.scope) == g.scopes && (forall x :: x in g.scopes ==> x in g.allowed)
    && g.token.expires == g.token.issued + TTL && g.token.issued <= s.now
  }

  ghost predicate Inv(h: Hashes, s: State) {
    && (forall id :: id in s.clients ==>
          id in s.ids && s.clients[id].digest in s.digests && AllWords(s.clients[id].scopes))
    && (forall i :: 0 <= i < |s.grants| ==> GrantInv(h, s, s.grants[i]))
  }

  lemma StepKeeps(h: Hashes, s: State, step: Step)
    requires Inv(h, s) && Enabled(h, s, step)
    ensures Inv(h, Next(h, s, step))
  {
    if step.Issue? {
      var client := s.clients[step.id];
      var words := Requested(step.scope);
      GrantUnique(client.scopes, step.scope, step.scope, Some(step.granted), Some(step.granted));
      assert AllWords(step.granted) by {
        if words != [] {
          forall i | 0 <= i < |step.granted| ensures IsWord(step.granted[i]) {
            assert step.granted[i] in words;
          }
        }
      }
      WordsOfJoin(step.granted);
    }
    forall i | 0 <= i < |Next(h, s, step).grants|
      ensures GrantInv(h, Next(h, s, step), Next(h, s, step).grants[i])
    {
      if i < |s.grants| {
        assert GrantInv(h, s, s.grants[i]);
      }
    }
  }

  lemma RunKeeps(h: Hashes, s: State)
    requires Reachable(h, s)
    ensures Inv(h, s)
  {
    var inv := (s: State) => Inv(h, s);
    forall s, step | inv(s) && Enabled(h, s, step) ensures inv(Next(h, s, step)) {
      StepKeeps(h, s, step);
    }
    ReachableKeeps(Machine(h), Initial, inv, s);
  }

  /**
   * In every history, a request accepted with an issued token belongs to an enabled client that still has the
   * secret the token was issued for; it can do exactly what both the grant and the client's present scopes
   * allow, the grant never exceeded the scopes the client then had, and the token is at most an hour and the
   * clock skew old.
   */
  lemma AcceptedIsLive(h: Hashes, s: State, g: Grant)
    requires Injective(h) && Reachable(h, s)
    requires g in s.grants && Accepted(h, s, g.token)
    ensures g.token.client in s.clients
    ensures
      var client := s.clients[g.token.client];
      && !client.disabled && client.digest == h.digest(g.secret)
      && Powers(s, g.token) == Capabilities(g.scopes) * Capabilities(client.scopes)
    ensures
      var client := s.clients[g.token.client];
      && (SessionsRead in Powers(s, g.token) <==> "sessions:read" in g.scopes && "sessions:read" in client.scopes)
      && (SessionsWrite in Powers(s, g.token) <==> "sessions:write" in g.scopes && "sessions:write" in client.scopes)
    ensures forall x :: x in g.scopes ==> x in g.allowed
    ensures s.now - 3630 <= g.token.issued <= s.now
  {
    RunKeeps(h, s);
    assert GrantInv(h, s, g);
    ScopesName(g.scopes);
    ScopesName(s.clients[g.token.client].scopes);
  }

  // ---- Revocation ---------------------------------------------------------------------------------------

  /** Why a token is refused for good: too old, the client is gone, or its secret was replaced. */
  predicate Dead(h: Hashes, s: State, g: Grant) {
    || g.token.expires + SKEW < s.now
    || g.token.client !in s.clients
    || s.clients[g.token.client].digest != h.digest(g.secret)
  }

  /** In every history an issued token is refused exactly when it is dead or its client is disabled. */
  lemma RefusedExactly(h: Hashes, s: State, g: Grant)
    requires Injective(h) && Reachable(h, s) && g in s.grants
    ensures !Accepted(h, s, g.token) <==> Dead(h, s, g) || s.clients[g.token.client].disabled
  {
    RunKeeps(h, s);
    assert GrantInv(h, s, g);
  }

  lemma StepKeepsDead(h: Hashes, s: State, step: Step, g: Grant)
    requires Inv(h, s) && Enabled(h, s, step) && GrantInv(h, s, g) && Dead(h, s, g)
    ensures Dead(h, Next(h, s, step), g) && GrantInv(h, Next(h, s, step), g)
  {}

  /** Dead tokens stay dead whatever is done afterwards: rotation, deletion and expiry cannot be undone. */
  lemma DeadForever(h: Hashes, s: State, steps: seq<Step>, g: Grant)
    requires Injective(h) && Reachable(h, s) && g in s.grants && Dead(h, s, g)
    requires Run(Machine(h), s, steps).Some?
    ensures !Accepted(h, Run(Machine(h), s, steps).value, g.token)
  {
    RunKeeps(h, s);
    assert GrantInv(h, s, g);
    var inv := (s: State) => Inv(h, s) && GrantInv(h, s, g) && Dead(h, s, g);
    forall s, step | inv(s) && Enabled(h, s, step) ensures inv(Next(h, s, step)) {
      StepKeeps(h, s, step);
      StepKeepsDead(h, s, step, g);
    }
    Runs.RunKeeps(Machine(h), inv, s, steps);
  }

  /** Rotating the secret or deleting the client kills every token issued to it so far. */
  lemma RevokesAll(h: Hashes, s: State, step: Step, g: Grant)
    requires Reachable(h, s) && Enabled(h, s, step) && g in s.grants
    requires step.Rotate? || step.Delete?
    requires g.token.client == step.id
    ensures Dead(h, Next(h, s, step), g)
  {
    RunKeeps(h, s);
    assert GrantInv(h, s, g);
  }

  // ---- Thread keys -----------------------------------------------------------------------------------------

  function KeyPrefix(id: string): string { "api:" + id + ":" }

  /** `owns_thread_key` */
  predicate OwnsThreadKey(id: string, key: string) {
    KeyPrefix(id) <= key && key != KeyPrefix(id)
  }

  lemma PrefixOfBoth(a: string, b: string, key: string)
    requires a <= key && b <= key && |a| <= |b|
    ensures a <= b
  {
    assert b == key[..|b|] && a == key[..|a|];
  }

  /** Two clients share a key exactly when one's identifier, with its colon, begins the other's. */
  lemma SharedExactly(a: string, b: string)
    ensures (exists key :: OwnsThreadKey(a, key) && OwnsThreadKey(b, key))
            <==> a + ":" <= b + ":" || b + ":" <= a + ":"
  {
    if key :| OwnsThreadKey(a, key) && OwnsThreadKey(b, key) {
      if |a| <= |b| {
        PrefixOfBoth(KeyPrefix(a), KeyPrefix(b), key);
        StripApi(a, b);
      } else {
        PrefixOfBoth(KeyPrefix(b), KeyPrefix(a), key);
        StripApi(b, a);
      }
    }
    if a + ":" <= b + ":" {
      StripApi(a, b);
      assert OwnsThreadKey(b, KeyPrefix(b) + "x") && OwnsThreadKey(a, KeyPrefix(b) + "x");
    } else if b + ":" <= a + ":" {
      StripApi(b, a);
      assert OwnsThreadKey(a, KeyPrefix(a) + "x") && OwnsThreadKey(b, KeyPrefix(a) + "x");
    }
  }

  lemma StripApi(a: string, b: string)
    ensures KeyPrefix(a) <= KeyPrefix(b) <==> a + ":" <= b + ":"
  {
    assert KeyPrefix(a) == "api:" + (a + ":") && KeyPrefix(b) == "api:" + (b + ":");
    assert forall i :: 0 <= i < |b + ":"| ==> KeyPrefix(b)[i + 4] == (b + ":")[i];
    assert forall i :: 0 <= i < |a + ":"| ==> KeyPrefix(a)[i + 4] == (a + ":")[i];
  }

  /** Identifiers are opaque ids without colons, so no two clients share a thread key. */
  lemma NamespacesDisjoint(a: string, b: string, key: string)
    requires ':' !in a && ':' !in b && OwnsThreadKey(a, key) && OwnsThreadKey(b, key)
    ensures a == b
  {
    SharedExactly(a, b);
    if a + ":" <= b + ":" {
      ColonEnds(a, b);
    } else {
      ColonEnds(b, a);
    }
  }

  lemma ColonEnds(a: string, b: string)
    requires ':' !in b && a + ":" <= b + ":"
    ensures a == b
  {
    assert (b + ":")[|a|] == ':';
    assert |a| == |b|;
    assert a == (a + ":")[..|a|] && b == (b + ":")[..|b|];
  }
}
