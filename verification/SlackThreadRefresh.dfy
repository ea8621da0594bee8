/**
 * The thread-refresh job (workflows/slack/backfill.py, the thread branch of `handler`): page through a
 * thread's replies, then replace the stored reply set by what was listed.
 */
module SlackThreadRefresh {
  import opened Common
  import opened SlackMessages

  datatype Reply = Reply(ts: string, payload: string, files: seq<File>)

  datatype ReplyPage = ReplyPage(messages: seq<Reply>, next: Option<string>, hasMore: bool)

  /** The server's answer for each cursor; None asks for the first page. */
  type Server = map<Option<string>, ReplyPage>

  predicate Continues(page: ReplyPage) { page.hasMore && page.next.Some? && page.next.value != "" }

  /** Every cursor the server hands out can be asked for. */
  predicate Closed(server: Server) {
    None in server && forall c :: c in server && Continues(server[c]) ==> server[c].next in server
  }

  /** Page `d` is what the server's answer for `c` continues with. */
  predicate Link(server: Server, c: Option<string>, d: Option<string>) {
    c in server && Continues(server[c]) && server[c].next == d
  }

  /** The cursors of consecutive pages, from the first page on. */
  ghost predicate Walk(server: Server, path: seq<Option<string>>) {
    && path != [] && path[0] == None
    && (forall c :: c in path ==> c in server)
    && (forall i, j :: 0 <= i && j == i + 1 && j < |path| ==> Link(server, path[i], path[j]))
  }

  /** A walk over all pages of the thread. */
  ghost predicate FullWalk(server: Server, path: seq<Option<string>>) {
    Walk(server, path) && !Continues(server[path[|path| - 1]])
  }

  function WithoutRoot(messages: seq<Reply>, thread: string): seq<Reply> {
    if messages == [] then []
    else
      var rest := WithoutRoot(messages[..|messages| - 1], thread);
      var m := messages[|messages| - 1];
      if m.ts == thread then rest else rest + [m]
  }

  /** The replies of the pages of a walk, the root left out. */
  function Listing(server: Server, thread: string, path: seq<Option<string>>): seq<Reply>
    requires forall c :: c in path ==> c in server
  {
    if path == [] then []
    else
      Listing(server, thread, path[..|path| - 1]) + WithoutRoot(server[path[|path| - 1]].messages, thread)
  }

  datatype Outcome = Listed(replies: seq<Reply>) | RepeatedCursor

  /** `message_row(reply, run_id, thread_ts)` */
  function RowOf(channel: string, thread: string, r: Reply): MessageRow {
    MessageRow(MessageKey(channel, r.ts), Message(Some(thread), r.payload), r.files)
  }

  function RowsOf(channel: string, thread: string, replies: seq<Reply>): (rows: seq<MessageRow>)
    ensures |rows| == |replies|
    ensures forall r :: r in rows ==> r.key.channel == channel && r.message.parent == Some(thread)
  {
    seq(|replies|, i requires 0 <= i < |replies| => RowOf(channel, thread, replies[i]))
  }

  /** The walk's cursors after the first page are the seen ones, all different. */
  ghost predicate Seen(path: seq<Option<string>>, seen: set<string>) {
    && path != [] && path[0] == None && |seen| == |path| - 1
    && (forall c: string :: c in seen <==> Some(c) in path)
  }

  /** Two walks agree as far as both go. */
  lemma {:induction false} WalkUnique(server: Server, p: seq<Option<string>>, q: seq<Option<string>>, i: nat)
    requires Walk(server, p) && Walk(server, q) && i < |p| && i < |q|
    ensures p[i] == q[i]
  {
    if i > 0 {
      WalkUnique(server, p, q, i - 1);
      assert Link(server, p[i - 1], p[i]) && Link(server, q[i - 1], q[i]);
    }
  }

  lemma LinkAt(server: Server, path: seq<Option<string>>, i: nat)
    requires Walk(server, path) && i + 1 < |path|
    ensures Continues(server[path[i]])
  {
    assert Link(server, path[i], path[i + 1]);
  }

  /** A thread has at most one full walk, so its listing is determined by the server. */
  lemma FullWalkUnique(server: Server, p: seq<Option<string>>, q: seq<Option<string>>)
    requires FullWalk(server, p) && FullWalk(server, q)
    ensures p == q
  {
    var n := Min(|p|, |q|);
    forall i | 0 <= i < n ensures p[i] == q[i] {
      WalkUnique(server, p, q, i);
    }
    if |p| < |q| {
      LinkAt(server, q, n - 1);
    } else if |q| < |p| {
      LinkAt(server, p, n - 1);
    }
  }

  /** Once a continuing walk returns to one of its cursors, every walk stays among its cursors. */
  lemma {:induction false} CycleCloses(server: Server, p: seq<Option<string>>, q: seq<Option<string>>, i: nat)
    requires Walk(server, p) && Walk(server, q) && i < |q|
    requires Continues(server[p[|p| - 1]]) && server[p[|p| - 1]].next in p
    ensures q[i] in p
  {
    if i == 0 {
      assert p[0] in p;
    } else {
      CycleCloses(server, p, q, i - 1);
      var k :| 0 <= k < |p| && p[k] == q[i - 1];
      assert Link(server, q[i - 1], q[i]);
      if k < |p| - 1 {
        assert Link(server, p[k], p[k + 1]);
        assert q[i] == p[k + 1];
      }
    }
  }

  /** A chain that returns to an earlier cursor never ends. */
  lemma CycleNeverEnds(server: Server, p: seq<Option<string>>, q: seq<Option<string>>)
    requires Walk(server, p) && Continues(server[p[|p| - 1]]) && server[p[|p| - 1]].next in p
    ensures !FullWalk(server, q)
  {
    if Walk(server, q) {
      CycleCloses(server, p, q, |q| - 1);
      var k :| 0 <= k < |p| && p[k] == q[|q| - 1];
      if k < |p| - 1 {
        assert Link(server, p[k], p[k + 1]);
      }
    }
  }

  /** All seen cursors are distinct keys of the server. */
  lemma SeenBounded(server: Server, path: seq<Option<string>>, seen: set<string>)
    requires Walk(server, path) && Seen(path, seen)
    ensures |path| <= |server.Keys|
  {
    var keys := set c | c in seen :: Some(c);
    Image(seen, keys);
    assert keys <= server.Keys - {None};
    Subset(keys, server.Keys - {None});
  }

  lemma {:induction false} Image(s: set<string>, t: set<Option<string>>)
    requires t == set c | c in s :: Some(c)
    ensures |t| == |s|
  {
    if s != {} {
      var c :| c in s;
      Image(s - {c}, set d | d in s - {c} :: Some(d));
      assert t == (set d | d in s - {c} :: Some(d)) + {Some(c)};
    }
  }

  /** Following one more link keeps the walk, its listing and its seen cursors in step. */
  lemma WalkOn(server: Server, path: seq<Option<string>>, seen: set<string>, next: string)
    requires Walk(server, path) && Seen(path, seen) && next !in seen
    requires Link(server, path[|path| - 1], Some(next)) && Some(next) in server
    ensures Walk(server, path + [Some(next)]) && Seen(path + [Some(next)], seen + {next})
  {
    var longer := path + [Some(next)];
    forall i, j | 0 <= i && j == i + 1 && j < |longer| ensures Link(server, longer[i], longer[j]) {
      if j < |path| {
        assert Link(server, path[i], path[j]);
      }
    }
  }

  /**
   * The paging loop. It lists the whole chain when the chain ends and raises exactly when it does not;
   * either way within one request more than there are cursors.
   */
  method FetchReplies(server: Server, thread: string)
    returns (outcome: Outcome, requests: nat, ghost path: seq<Option<string>>)
    requires Closed(server)
    ensures 1 <= requests <= |server.Keys|
    ensures outcome.Listed? ==>
      FullWalk(server, path) && requests == |path| && outcome.replies == Listing(server, thread, path)
    ensures outcome.RepeatedCursor? <==> forall p :: !FullWalk(server, p)
  {
    var cursor: Option<string> := None;
    var seen: set<string> := {};
    var all: seq<Reply> := [];
    requests := 0;
    path := [None];
    while true
      invariant Walk(server, path) && path[|path| - 1] == cursor
      invariant requests == |path| - 1
      invariant all == Listing(server, thread, path[..requests])
      invariant Seen(path, seen)
      decreases |server.Keys| - requests
    {
      SeenBounded(server, path, seen);
      var page := server[cursor];
      all := all + WithoutRoot(page.messages, thread);
      requests := requests + 1;
      if !page.hasMore || page.next.None? || page.next.value == "" {
        assert FullWalk(server, path);
        outcome := Listed(all);
        return;
      }
      if page.next.value in seen {
        forall p ensures !FullWalk(server, p) {
          CycleNeverEnds(server, path, p);
        }
        outcome := RepeatedCursor;
        return;
      }
      WalkOn(server, path, seen, page.next.value);
      ghost var longer := path + [page.next];
      assert longer[..requests] == path && path[..requests - 1] == path[..|path| - 1];
      path := longer;
      seen := seen + {page.next.value};
      cursor := page.next;
    }
  }

  /**
   * The whole job: when it completes, the thread's stored children are exactly the replies listed over
   * all pages; when the server's cursors loop, it raises and stores nothing.
   */
  method RefreshThread(store: Store, server: Server, channel: string, thread: string)
    returns (outcome: Outcome, ghost path: seq<Option<string>>)
    requires Closed(server)
    modifies store
    ensures outcome.Listed? ==>
      && FullWalk(server, path) && outcome.replies == Listing(server, thread, path)
      && RepliesStored(old(store.View()), channel, thread, outcome.replies, store.View())
    ensures outcome.RepeatedCursor? ==> store.View() == old(store.View())
    ensures outcome.RepeatedCursor? <==> forall p :: !FullWalk(server, p)
  {
    var requests;
    outcome, requests, path := FetchReplies(server, thread);
    if outcome.Listed? {
      var _, _ := store.ReplaceThreadReplies(channel, thread, RowsOf(channel, thread, outcome.replies));
      ReplacedIsStored(old(store.View()), channel, thread, outcome.replies, store.View());
    }
  }

  // ---- What a refresh stores, from the replies' own fields -------------------------------------------------

  predicate IsListed(replies: seq<Reply>, ts: string) { exists i :: 0 <= i < |replies| && replies[i].ts == ts }

  predicate IsLastReply(replies: seq<Reply>, i: nat) {
    i < |replies| && forall j :: i < j < |replies| ==> replies[j].ts != replies[i].ts
  }

  /** The reply is stored under its timestamp, with its content and exactly its files. */
  ghost predicate ReplyStored(result: Tables, channel: string, thread: string, r: Reply) {
    var key := MessageKey(channel, r.ts);
    && Get(result.messages, key) == Some(Message(Some(thread), r.payload))
    && forall id :: LastFile(r.files, id, Get(result.attachments, AttachmentKey(key, id)))
  }

  /** A message that is no listed reply stays as it was, with its files, unless it was a child of the thread. */
  ghost predicate OtherKept(t: Tables, channel: string, thread: string, result: Tables, k: MessageKey) {
    if ChildOf(t.messages, channel, thread, k) then k !in result.messages
    else
      && Get(result.messages, k) == Get(t.messages, k)
      && (k in t.messages ==> forall id :: Get(result.attachments, AttachmentKey(k, id)) == Get(t.attachments, AttachmentKey(k, id)))
  }

  /**
   * The children of the thread are exactly the listed timestamps; each holds its last listed reply; every other
   * message of the table is as before, but for former children, which are gone.
   */
  ghost predicate RepliesStored(t: Tables, channel: string, thread: string, replies: seq<Reply>, result: Tables) {
    && (forall k: MessageKey :: k.channel == channel ==>
          (ChildOf(result.messages, channel, thread, k)
           <==> k.ts != "" && exists i: nat :: IsLastReply(replies, i) && replies[i].ts == k.ts))
    && (forall i :: 0 <= i < |replies| && replies[i].ts != "" && IsLastReply(replies, i) ==>
          ReplyStored(result, channel, thread, replies[i]))
    && (forall k: MessageKey :: k.channel != channel || !IsListed(replies, k.ts) ==> OtherKept(t, channel, thread, result, k))
  }

  /** A listed timestamp has a last reply. */
  lemma ListedHasLast(replies: seq<Reply>, ts: string)
    ensures IsListed(replies, ts) <==> exists i: nat :: IsLastReply(replies, i) && replies[i].ts == ts
  {
    if IsListed(replies, ts) {
      var i :| 0 <= i < |replies| && replies[i].ts == ts;
      var k := LastFrom(replies, ts, i);
    }
  }

  lemma {:induction false} LastFrom(replies: seq<Reply>, ts: string, i: nat) returns (k: nat)
    requires i < |replies| && replies[i].ts == ts
    ensures IsLastReply(replies, k) && replies[k].ts == ts
    decreases |replies| - i
  {
    k := i;
    if j :| i < j < |replies| && replies[j].ts == ts {
      k := LastFrom(replies, ts, j);
    }
  }

  lemma ListedRow(channel: string, thread: string, replies: seq<Reply>, k: MessageKey)
    ensures LastRow(RowsOf(channel, thread, replies), k).Some? <==> k.channel == channel && IsListed(replies, k.ts)
  {
    var rows := RowsOf(channel, thread, replies);
    LastRowFound(rows, k);
    if k.channel == channel && IsListed(replies, k.ts) {
      var i :| 0 <= i < |replies| && replies[i].ts == k.ts;
      assert rows[i] in rows;
    }
  }

  lemma LastReplyStored(t: Tables, channel: string, thread: string, replies: seq<Reply>, result: Tables, i: nat)
    requires ThreadReplaced(t, channel, thread, RowsOf(channel, thread, replies), result)
    requires IsLastReply(replies, i) && replies[i].ts != ""
    ensures ReplyStored(result, channel, thread, replies[i])
  {
    var rows, key := RowsOf(channel, thread, replies), MessageKey(channel, replies[i].ts);
    assert IsLastRow(rows, i);
    LastRowIs(rows, i);
    assert KeyReplaced(t, channel, thread, rows, result, key);
    forall id ensures LastFile(replies[i].files, id, Get(result.attachments, AttachmentKey(key, id))) {
      AttachmentRowsExact(rows[i], id);
      assert Get(result.attachments, AttachmentKey(key, id)) == AttachmentAfter(t, rows, AttachmentKey(key, id));
    }
  }

  lemma OtherIsKept(t: Tables, channel: string, thread: string, replies: seq<Reply>, result: Tables, k: MessageKey)
    requires ThreadReplaced(t, channel, thread, RowsOf(channel, thread, replies), result)
    requires k.channel != channel || !IsListed(replies, k.ts)
    ensures OtherKept(t, channel, thread, result, k)
  {
    var rows := RowsOf(channel, thread, replies);
    ListedRow(channel, thread, replies, k);
    assert KeyReplaced(t, channel, thread, rows, result, k);
    forall id
      ensures k in result.messages ==> Get(result.attachments, AttachmentKey(k, id)) == Get(t.attachments, AttachmentKey(k, id))
    {
      var a := AttachmentKey(k, id);
      assert Get(result.attachments, a) == if a.message in result.messages then AttachmentAfter(t, rows, a) else None;
    }
  }

  lemma ReplacedIsStored(t: Tables, channel: string, thread: string, replies: seq<Reply>, result: Tables)
    requires ThreadReplaced(t, channel, thread, RowsOf(channel, thread, replies), result)
    ensures RepliesStored(t, channel, thread, replies, result)
  {
    var rows := RowsOf(channel, thread, replies);
    forall k: MessageKey | k.channel == channel
      ensures ChildOf(result.messages, channel, thread, k)
              <==> k.ts != "" && exists i: nat :: IsLastReply(replies, i) && replies[i].ts == k.ts
    {
      ListedRow(channel, thread, replies, k);
      ListedHasLast(replies, k.ts);
      assert KeyReplaced(t, channel, thread, rows, result, k);
    }
    forall i | 0 <= i < |replies| && replies[i].ts != "" && IsLastReply(replies, i)
      ensures ReplyStored(result, channel, thread, replies[i])
    {
      LastReplyStored(t, channel, thread, replies, result, i);
    }
    forall k: MessageKey | k.channel != channel || !IsListed(replies, k.ts) ensures OtherKept(t, channel, thread, result, k) {
      OtherIsKept(t, channel, thread, replies, result, k);
    }
  }

  // ---- The listing, page by page ---------------------------------------------------------------------------

  /** Pages are listed in order, and each keeps the order of its replies. */
  lemma ListingInOrder(server: Server, thread: string, path: seq<Option<string>>, c: Option<string>)
    requires (forall d :: d in path ==> d in server) && c in server
    ensures Listing(server, thread, path + [c])
         == Listing(server, thread, path) + WithoutRoot(server[c].messages, thread)
  {
    assert (path + [c])[..|path|] == path;
  }

  lemma {:induction false} WithoutRootInOrder(a: seq<Reply>, b: seq<Reply>, thread: string)
    ensures WithoutRoot(a + b, thread) == WithoutRoot(a, thread) + WithoutRoot(b, thread)
  {
    if b == [] {
      assert a + b == a;
    } else {
      WithoutRootInOrder(a, b[..|b| - 1], thread);
      assert (a + b)[..|a + b| - 1] == a + b[..|b| - 1];
    }
  }

  /** The page says there are more and names the cursor `d`, which is not empty. */
  predicate Names(page: ReplyPage, d: Option<string>) {
    page.hasMore && d.Some? && d.value != "" && page.next == d
  }

  predicate NamesNone(page: ReplyPage) { !page.hasMore || page.next == None || page.next == Some("") }

  /** A complete listing starts without a cursor and follows each page's cursor until a page names none. */
  lemma FullWalkExactly(server: Server, path: seq<Option<string>>)
    requires path != [] && forall c :: c in path ==> c in server
    ensures FullWalk(server, path) <==>
      && path[0] == None
      && (forall i, j :: 0 <= i && j == i + 1 && j < |path| ==> Names(server[path[i]], path[j]))
      && NamesNone(server[path[|path| - 1]])
  {
    forall i, j | 0 <= i && j == i + 1 && j < |path| ensures Link(server, path[i], path[j]) <==> Names(server[path[i]], path[j]) {
      assert path[i] in path;
    }
  }

  lemma {:induction false} WithoutRootExact(messages: seq<Reply>, thread: string, r: Reply)
    ensures r in WithoutRoot(messages, thread) <==> r in messages && r.ts != thread
  {
    if messages != [] {
      WithoutRootExact(messages[..|messages| - 1], thread, r);
      assert messages == messages[..|messages| - 1] + [messages[|messages| - 1]];
    }
  }

  /** The listing holds a reply exactly when some page of the walk shows it and it is not the root. */
  lemma {:induction false} ListingExact(server: Server, thread: string, path: seq<Option<string>>, r: Reply)
    requires forall c :: c in path ==> c in server
    ensures r in Listing(server, thread, path) <==> r.ts != thread && exists c :: c in path && r in server[c].messages
  {
    if path != [] {
      var front, last := path[..|path| - 1], path[|path| - 1];
      ListingExact(server, thread, front, r);
      WithoutRootExact(server[last].messages, thread, r);
      assert path == front + [last];
    }
  }
}
