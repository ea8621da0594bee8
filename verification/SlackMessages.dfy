/**
 * Slack message and attachment tables (workflows/slack/shared.py, `_attachment_rows`,
 * `_dedupe_message_rows`, `upsert_messages`, `_replace_message_attachments_batch`,
 * `replace_thread_replies`). The reference is row-by-row reconciliation; the code writes in batches.
 */
module SlackMessages {
  import opened Common

  datatype MessageKey = MessageKey(channel: string, ts: string)

  /** The stored columns of a message other than its key and bookkeeping times. */
  datatype Message = Message(parent: Option<string>, payload: string)

  /** A file as observed on a message; `id` is already stripped. */
  datatype File = File(id: string, payload: string)

  datatype MessageRow = MessageRow(key: MessageKey, message: Message, files: seq<File>)

  datatype AttachmentKey = AttachmentKey(message: MessageKey, file: string)

  datatype Param = Param(key: AttachmentKey, payload: string)

  datatype Tables = Tables(messages: map<MessageKey, Message>, attachments: map<AttachmentKey, string>)

  /** `_attachment_rows`: files without an id are dropped. */
  function AttachmentRows(key: MessageKey, files: seq<File>): seq<Param> {
    if files == [] then []
    else
      var rest := AttachmentRows(key, files[..|files| - 1]);
      var f := files[|files| - 1];
      if f.id == "" then rest else rest + [Param(AttachmentKey(key, f.id), f.payload)]
  }

  function Params(row: MessageRow): seq<Param> { AttachmentRows(row.key, row.files) }

  function AllParams(rows: seq<MessageRow>): seq<Param> {
    if rows == [] then [] else AllParams(rows[..|rows| - 1]) + Params(rows[|rows| - 1])
  }

  /** INSERT ... ON CONFLICT DO UPDATE for each parameter tuple in turn. */
  function Upserted(t: map<AttachmentKey, string>, ps: seq<Param>): map<AttachmentKey, string> {
    if ps == [] then t else Upserted(t, ps[..|ps| - 1])[ps[|ps| - 1].key := ps[|ps| - 1].payload]
  }

  function LastParam(ps: seq<Param>, k: AttachmentKey): Option<string> {
    if ps == [] then None
    else if ps[|ps| - 1].key == k then Some(ps[|ps| - 1].payload)
    else LastParam(ps[..|ps| - 1], k)
  }

  function LastRow(rows: seq<MessageRow>, k: MessageKey): Option<MessageRow> {
    if rows == [] then None
    else if rows[|rows| - 1].key == k then Some(rows[|rows| - 1])
    else LastRow(rows[..|rows| - 1], k)
  }

  // ---- The reference: reconcile each observed row in order ------------------------------------

  /** Store one row, its files, and drop the message's files that were not observed. */
  function Reconcile(t: Tables, row: MessageRow): Tables {
    var stored := Upserted(t.attachments, Params(row));
    Tables(t.messages[row.key := row.message],
           map a | a in stored && (a.message != row.key || LastParam(Params(row), a).Some?) :: stored[a])
  }

  function ReconcileAll(t: Tables, rows: seq<MessageRow>): Tables {
    if rows == [] then t else Reconcile(ReconcileAll(t, rows[..|rows| - 1]), rows[|rows| - 1])
  }

  // ---- What both compute ---------------------------------------------------------------------

  /** The last observation of a message decides its columns. */
  function MessageAfter(t: Tables, rows: seq<MessageRow>, k: MessageKey): Option<Message> {
    if LastRow(rows, k).Some? then Some(LastRow(rows, k).value.message) else Get(t.messages, k)
  }

  /** The last observation of a message decides its whole attachment set; other messages keep theirs. */
  function AttachmentAfter(t: Tables, rows: seq<MessageRow>, a: AttachmentKey): Option<string> {
    var row := LastRow(rows, a.message);
    if row.Some? then LastParam(Params(row.value), a) else Get(t.attachments, a)
  }

  ghost predicate Reflects(t: Tables, rows: seq<MessageRow>, result: Tables) {
    && (forall k :: Get(result.messages, k) == MessageAfter(t, rows, k))
    && (forall a :: Get(result.attachments, a) == AttachmentAfter(t, rows, a))
  }

  lemma ReflectsUnique(t: Tables, rows: seq<MessageRow>, a: Tables, b: Tables)
    requires Reflects(t, rows, a) && Reflects(t, rows, b)
    ensures a == b
  {
    forall k ensures Get(a.messages, k) == Get(b.messages, k) {}
    assert forall k :: k in a.messages <==> Get(a.messages, k).Some?;
    assert forall k :: k in b.messages <==> Get(b.messages, k).Some?;
    assert a.messages == b.messages;
    assert forall k :: k in a.attachments <==> Get(a.attachments, k).Some?;
    assert forall k :: k in b.attachments <==> Get(b.attachments, k).Some?;
    assert a.attachments == b.attachments;
  }

  lemma {:induction false} UpsertedGet(t: map<AttachmentKey, string>, ps: seq<Param>, a: AttachmentKey)
    ensures Get(Upserted(t, ps), a) == if LastParam(ps, a).Some? then LastParam(ps, a) else Get(t, a)
  {
    if ps != [] {
      UpsertedGet(t, ps[..|ps| - 1], a);
    }
  }

  lemma {:induction false} LastParamConcat(a: seq<Param>, b: seq<Param>, k: AttachmentKey)
    ensures LastParam(a + b, k) == if LastParam(b, k).Some? then LastParam(b, k) else LastParam(a, k)
  {
    if b == [] {
      assert a + b == a;
    } else {
      assert (a + b)[..|a + b| - 1] == a + b[..|b| - 1];
      LastParamConcat(a, b[..|b| - 1], k);
    }
  }

  /** A row only names attachments of its own message. */
  lemma {:induction false} ParamsOwn(key: MessageKey, files: seq<File>, a: AttachmentKey)
    requires a.message != key
    ensures LastParam(AttachmentRows(key, files), a) == None
  {
    if files != [] {
      ParamsOwn(key, files[..|files| - 1], a);
      var rest := AttachmentRows(key, files[..|files| - 1]);
      var f := files[|files| - 1];
      if f.id != "" {
        LastParamConcat(rest, [Param(AttachmentKey(key, f.id), f.payload)], a);
      }
    }
  }

  /** `v` is the payload of the last file with this id, None when there is none; a file without an id is no file. */
  ghost predicate LastFile(files: seq<File>, id: string, v: Option<string>) {
    && (v.Some? <==> id != "" && exists i :: 0 <= i < |files| && files[i].id == id)
    && forall i :: 0 <= i < |files| && files[i].id == id && id != "" && (forall j :: i < j < |files| ==> files[j].id != id)
         ==> v == Some(files[i].payload)
  }

  lemma {:induction false} FileAt(key: MessageKey, files: seq<File>, id: string, i: nat)
    requires i < |files| && files[i].id == id && id != "" && forall j :: i < j < |files| ==> files[j].id != id
    ensures LastParam(AttachmentRows(key, files), AttachmentKey(key, id)) == Some(files[i].payload)
  {
    var front, f := files[..|files| - 1], files[|files| - 1];
    if f.id != "" {
      LastParamConcat(AttachmentRows(key, front), [Param(AttachmentKey(key, f.id), f.payload)], AttachmentKey(key, id));
    }
    if i < |files| - 1 {
      FileAt(key, front, id, i);
    }
  }

  lemma {:induction false} NoFile(key: MessageKey, files: seq<File>, id: string)
    requires id == "" || forall i :: 0 <= i < |files| ==> files[i].id != id
    ensures LastParam(AttachmentRows(key, files), AttachmentKey(key, id)) == None
  {
    if files != [] {
      var front, f := files[..|files| - 1], files[|files| - 1];
      NoFile(key, front, id);
      if f.id != "" {
        LastParamConcat(AttachmentRows(key, front), [Param(AttachmentKey(key, f.id), f.payload)], AttachmentKey(key, id));
      }
    }
  }

  lemma {:induction false} LastIndex(files: seq<File>, id: string, i: nat) returns (k: nat)
    requires i < |files| && files[i].id == id
    ensures i <= k < |files| && files[k].id == id && forall j :: k < j < |files| ==> files[j].id != id
    decreases |files| - i
  {
    k := i;
    if j :| i < j < |files| && files[j].id == id {
      k := LastIndex(files, id, j);
    }
  }

  /** The attachment rows of a message are its files with an id, the last of each id. */
  lemma AttachmentRowsExact(row: MessageRow, id: string)
    ensures LastFile(row.files, id, LastParam(Params(row), AttachmentKey(row.key, id)))
  {
    if id != "" && exists i :: 0 <= i < |row.files| && row.files[i].id == id {
      var i :| 0 <= i < |row.files| && row.files[i].id == id;
      var k := LastIndex(row.files, id, i);
      FileAt(row.key, row.files, id, k);
    } else {
      NoFile(row.key, row.files, id);
    }
  }

  lemma ReconcileGet(t: Tables, row: MessageRow, a: AttachmentKey)
    ensures Get(Reconcile(t, row).attachments, a)
         == if a.message == row.key then LastParam(Params(row), a) else Get(t.attachments, a)
  {
    UpsertedGet(t.attachments, Params(row), a);
    if a.message != row.key {
      ParamsOwn(row.key, row.files, a);
    }
  }

  /** Row-by-row reconciliation leaves what the last observations say. */
  lemma {:induction false} ReconcileAllReflects(t: Tables, rows: seq<MessageRow>)
    ensures Reflects(t, rows, ReconcileAll(t, rows))
  {
    if rows != [] {
      var front, row := rows[..|rows| - 1], rows[|rows| - 1];
      ReconcileAllReflects(t, front);
      forall k ensures Get(ReconcileAll(t, rows).messages, k) == MessageAfter(t, rows, k) {
        assert Get(ReconcileAll(t, front).messages, k) == MessageAfter(t, front, k);
      }
      forall a ensures Get(ReconcileAll(t, rows).attachments, a) == AttachmentAfter(t, rows, a) {
        ReconcileGet(ReconcileAll(t, front), row, a);
      }
    }
  }

  // ---- Dedupe ----------------------------------------------------------------------------------

  ghost predicate Distinct(rows: seq<MessageRow>) {
    forall i, j :: 0 <= i < j < |rows| ==> rows[i].key != rows[j].key
  }

  lemma {:induction false} LastRowSnoc(rows: seq<MessageRow>, row: MessageRow, k: MessageKey)
    ensures LastRow(rows + [row], k) == if row.key == k then Some(row) else LastRow(rows, k)
  {
    assert (rows + [row])[..|rows|] == rows;
  }

  lemma {:induction false} LastRowAt(rows: seq<MessageRow>, i: nat)
    requires i < |rows| && Distinct(rows)
    ensures LastRow(rows, rows[i].key) == Some(rows[i])
  {
    if i < |rows| - 1 {
      LastRowAt(rows[..|rows| - 1], i);
    }
  }

  lemma {:induction false} LastRowFound(rows: seq<MessageRow>, k: MessageKey)
    ensures LastRow(rows, k).Some? ==> LastRow(rows, k).value in rows && LastRow(rows, k).value.key == k
    ensures LastRow(rows, k).None? ==> forall r :: r in rows ==> r.key != k
  {
    if rows != [] {
      LastRowFound(rows[..|rows| - 1], k);
      assert rows == rows[..|rows| - 1] + [rows[|rows| - 1]];
    }
  }

  /** Row `i` is the last observation of its message. */
  predicate IsLastRow(rows: seq<MessageRow>, i: nat) {
    i < |rows| && forall j :: i < j < |rows| ==> rows[j].key != rows[i].key
  }

  lemma {:induction false} LastRowIs(rows: seq<MessageRow>, i: nat)
    requires IsLastRow(rows, i)
    ensures LastRow(rows, rows[i].key) == Some(rows[i])
  {
    if i < |rows| - 1 {
      LastRowIs(rows[..|rows| - 1], i);
    }
  }

  /** What a batch stores of a message, from its last observation's own fields. */
  lemma LastObservation(t: Tables, rows: seq<MessageRow>, i: nat, id: string)
    requires IsLastRow(rows, i)
    ensures
      var key, after := rows[i].key, ReconcileAll(t, rows);
      && Get(after.messages, key) == Some(rows[i].message)
      && LastFile(rows[i].files, id, Get(after.attachments, AttachmentKey(key, id)))
  {
    var key, after := rows[i].key, ReconcileAll(t, rows);
    ReconcileAllReflects(t, rows);
    LastRowIs(rows, i);
    AttachmentRowsExact(rows[i], id);
    assert Get(after.messages, key) == MessageAfter(t, rows, key);
    assert Get(after.attachments, AttachmentKey(key, id)) == AttachmentAfter(t, rows, AttachmentKey(key, id));
  }

  /** Replacing the row at `i` of a list with distinct keys changes only that key's last row. */
  lemma LastRowUpdate(rows: seq<MessageRow>, i: nat, row: MessageRow, k: MessageKey)
    requires i < |rows| && Distinct(rows) && rows[i].key == row.key
    ensures Distinct(rows[i := row])
    ensures LastRow(rows[i := row], k) == if row.key == k then Some(row) else LastRow(rows, k)
  {
    var updated := rows[i := row];
    if row.key == k {
      LastRowAt(updated, i);
    } else {
      LastRowFound(updated, k);
      LastRowFound(rows, k);
      if LastRow(rows, k).Some? {
        var j :| 0 <= j < |rows| && rows[j] == LastRow(rows, k).value;
        assert updated[j] == rows[j];
        LastRowAt(updated, j);
      }
    }
  }

  /** `_dedupe_message_rows`: a dictionary keeps the position of the first row and the value of the last. */
  method DedupeMessageRows(rows: seq<MessageRow>) returns (unique: seq<MessageRow>)
    ensures Distinct(unique)
    ensures forall k :: LastRow(unique, k) == LastRow(rows, k)
  {
    unique := [];
    var index: map<MessageKey, nat> := map[];
    for n := 0 to |rows|
      invariant Distinct(unique)
      invariant forall k :: k in index ==> index[k] < |unique| && unique[index[k]].key == k
      invariant forall i :: 0 <= i < |unique| ==> unique[i].key in index && index[unique[i].key] == i
      invariant forall k :: LastRow(unique, k) == LastRow(rows[..n], k)
    {
      var row := rows[n];
      assert rows[..n + 1] == rows[..n] + [row];
      forall k ensures LastRow(rows[..n + 1], k) == if row.key == k then Some(row) else LastRow(unique, k) {
        LastRowSnoc(rows[..n], row, k);
      }
      if row.key in index {
        var updated := unique[index[row.key] := row];
        forall k ensures LastRow(updated, k) == LastRow(rows[..n + 1], k) {
          LastRowUpdate(unique, index[row.key], row, k);
        }
        LastRowUpdate(unique, index[row.key], row, row.key);
        unique := updated;
      } else {
        forall k ensures LastRow(unique + [row], k) == LastRow(rows[..n + 1], k) {
          LastRowSnoc(unique, row, k);
        }
        index := index[row.key := |unique|];
        unique := unique + [row];
      }
    }
    assert rows[..|rows|] == rows;
  }

  /** With distinct keys, the flattened parameters name exactly the files of each message's only row. */
  lemma {:induction false} AllParamsLast(rows: seq<MessageRow>, a: AttachmentKey)
    requires Distinct(rows)
    ensures LastParam(AllParams(rows), a)
         == if LastRow(rows, a.message).Some? then LastParam(Params(LastRow(rows, a.message).value), a) else None
  {
    if rows != [] {
      var front, row := rows[..|rows| - 1], rows[|rows| - 1];
      AllParamsLast(front, a);
      LastParamConcat(AllParams(front), Params(row), a);
      if a.message == row.key {
        LastRowFound(front, a.message);
      } else {
        ParamsOwn(row.key, row.files, a);
      }
    }
  }

  // ---- The code: one batch ---------------------------------------------------------------------

  /** The parameter tuples of the bulk upsert, row by row. */
  method CollectParams(rows: seq<MessageRow>) returns (params: seq<Param>)
    ensures params == AllParams(rows)
  {
    params := [];
    for n := 0 to |rows|
      invariant params == AllParams(rows[..n])
    {
      assert rows[..n + 1][..n] == rows[..n];
      params := params + Params(rows[n]);
    }
    assert rows[..|rows|] == rows;
  }

  class Store {
    var messages: map<MessageKey, Message>
    var attachments: map<AttachmentKey, string>

    ghost function View(): Tables
      reads this
    {
      Tables(messages, attachments)
    }

    /** `upsert_messages`: the batch leaves exactly what row-by-row reconciliation would. */
    method UpsertMessages(rows: seq<MessageRow>) returns (count: nat)
      modifies this
      ensures View() == ReconcileAll(old(View()), rows) && count == |rows|
      ensures Reflects(old(View()), rows, View())
    {
      count := |rows|;
      ReconcileAllReflects(old(View()), rows);
      if rows == [] {
        return;
      }
      var unique := DedupeMessageRows(rows);
      for n := 0 to |unique|
        invariant attachments == old(attachments)
        invariant forall k :: Get(messages, k) == MessageAfter(old(View()), unique[..n], k)
      {
        assert unique[..n + 1] == unique[..n] + [unique[n]];
        forall k ensures LastRow(unique[..n + 1], k)
                      == if unique[n].key == k then Some(unique[n]) else LastRow(unique[..n], k)
        {
          LastRowSnoc(unique[..n], unique[n], k);
        }
        ghost var before := messages;
        messages := messages[unique[n].key := unique[n].message];
        forall k ensures Get(messages, k) == MessageAfter(old(View()), unique[..n + 1], k) {
          assert Get(before, k) == MessageAfter(old(View()), unique[..n], k);
        }
      }
      assert unique[..|unique|] == unique;
      ReplaceAttachments(unique);
      assert Reflects(old(View()), rows, View());
      ReflectsUnique(old(View()), rows, View(), ReconcileAll(old(View()), rows));
    }

    /** The bulk upsert of attachment rows. */
    method UpsertParams(params: seq<Param>)
      modifies this`attachments
      ensures attachments == Upserted(old(attachments), params)
    {
      for n := 0 to |params|
        invariant attachments == Upserted(old(attachments), params[..n])
      {
        assert params[..n + 1][..n] == params[..n];
        attachments := attachments[params[n].key := params[n].payload];
      }
      assert params[..|params|] == params;
    }

    /** `_replace_message_attachments_batch`: one bulk upsert, then one set-based stale delete. */
    method ReplaceAttachments(rows: seq<MessageRow>)
      requires Distinct(rows)
      modifies this`attachments
      ensures forall a :: Get(attachments, a) == AttachmentAfter(old(View()), rows, a)
    {
      var params := CollectParams(rows);
      UpsertParams(params);
      var observed := set r | r in rows :: r.key;
      var kept := set p | p in params :: p.key;
      attachments := map a | a in attachments && !(a.message in observed && a !in kept) :: attachments[a];
      forall a ensures Get(attachments, a) == AttachmentAfter(old(View()), rows, a) {
        AfterStaleDelete(old(View()), rows, a);
      }
    }

    /** `replace_thread_replies`: the fetched replies become the thread's whole stored reply set. */
    method ReplaceThreadReplies(channel: string, thread: string, replies: seq<MessageRow>)
      returns (upserted: nat, deleted: nat)
      requires forall r :: r in replies ==> r.key.channel == channel && r.message.parent == Some(thread)
      modifies this
      ensures upserted == |replies|
      ensures deleted == |ReconcileAll(old(View()), replies).messages.Keys - messages.Keys|
      ensures ThreadReplaced(old(View()), channel, thread, replies, View())
    {
      upserted := UpsertMessages(replies);
      ghost var merged := View();
      deleted := DeleteStaleReplies(channel, thread, Timestamps(replies));
      StaleDeleted(old(View()), merged, channel, thread, replies, View());
    }

    /** The second transaction: children of the thread that were not listed go, and their files with them. */
    method DeleteStaleReplies(channel: string, thread: string, listed: set<string>) returns (deleted: nat)
      modifies this
      ensures View() == WithoutStale(old(View()), channel, thread, listed)
      ensures deleted == |old(messages).Keys - messages.Keys|
    {
      var stale := set k | k in messages && StaleReply(channel, thread, listed, k, messages[k]);
      deleted := |stale|;
      ghost var before := messages;
      messages := map k | k in messages && k !in stale :: messages[k];
      attachments := map a | a in attachments && a.message in messages :: attachments[a];
      assert before.Keys - messages.Keys == stale;
    }
  }

  function Timestamps(replies: seq<MessageRow>): set<string> { set r | r in replies && r.key.ts != "" :: r.key.ts }

  function WithoutStale(t: Tables, channel: string, thread: string, listed: set<string>): Tables {
    var messages := map k | k in t.messages && !StaleReply(channel, thread, listed, k, t.messages[k]) :: t.messages[k];
    Tables(messages, map a | a in t.attachments && a.message in messages :: t.attachments[a])
  }

  lemma StaleDeleted(t: Tables, merged: Tables, channel: string, thread: string, replies: seq<MessageRow>, result: Tables)
    requires forall r :: r in replies ==> r.key.channel == channel && r.message.parent == Some(thread)
    requires Reflects(t, replies, merged) && result == WithoutStale(merged, channel, thread, Timestamps(replies))
    ensures ThreadReplaced(t, channel, thread, replies, result)
  {
    forall a ensures Get(result.attachments, a)
                  == if a.message in result.messages then AttachmentAfter(t, replies, a) else None
    {
      assert Get(merged.attachments, a) == AttachmentAfter(t, replies, a);
    }
    forall k ensures KeyReplaced(t, channel, thread, replies, result, k) {
      KeyAfterDelete(t, merged, channel, thread, replies, k);
    }
  }

  lemma KeyAfterDelete(t: Tables, merged: Tables, channel: string, thread: string, replies: seq<MessageRow>, k: MessageKey)
    requires forall r :: r in replies ==> r.key.channel == channel && r.message.parent == Some(thread)
    requires Reflects(t, replies, merged)
    ensures KeyReplaced(t, channel, thread, replies, WithoutStale(merged, channel, thread, Timestamps(replies)), k)
  {
    LastRowFound(replies, k);
    assert Get(merged.messages, k) == MessageAfter(t, replies, k);
  }

  predicate StaleReply(channel: string, thread: string, ids: set<string>, k: MessageKey, m: Message) {
    k.channel == channel && m.parent == Some(thread) && k.ts !in ids
  }

  predicate ChildOf(messages: map<MessageKey, Message>, channel: string, thread: string, k: MessageKey) {
    k in messages && k.channel == channel && messages[k].parent == Some(thread)
  }

  /** What the call does with one message. */
  predicate KeyReplaced(t: Tables, channel: string, thread: string, replies: seq<MessageRow>, result: Tables, k: MessageKey) {
    && (k.channel == channel ==>
          (ChildOf(result.messages, channel, thread, k) <==> k.ts != "" && LastRow(replies, k).Some?))
    && (LastRow(replies, k).Some? && k.ts != "" ==>
          Get(result.messages, k) == Some(LastRow(replies, k).value.message))
    && (LastRow(replies, k).None? ==>
          Get(result.messages, k) == if ChildOf(t.messages, channel, thread, k) then None else Get(t.messages, k))
  }

  /**
   * The stored children of the thread are exactly the listed replies (a reply without a timestamp is
   * never kept), each with its last listed content, and no other message changes.
   */
  ghost predicate ThreadReplaced(t: Tables, channel: string, thread: string, replies: seq<MessageRow>, result: Tables) {
    && (forall k :: KeyReplaced(t, channel, thread, replies, result, k))
    && (forall a :: Get(result.attachments, a)
          == if a.message in result.messages then AttachmentAfter(t, replies, a) else None)
  }

  /** A crash between the upsert and the delete is repaired by the next attempt: it leaves what one clean call leaves. */
  lemma InterruptedReplace(t: Tables, channel: string, thread: string, replies: seq<MessageRow>, result: Tables)
    requires forall r :: r in replies ==> r.key.channel == channel && r.message.parent == Some(thread)
    requires ThreadReplaced(ReconcileAll(t, replies), channel, thread, replies, result)
    ensures ThreadReplaced(t, channel, thread, replies, result)
  {
    var merged := ReconcileAll(t, replies);
    ReconcileAllReflects(t, replies);
    forall k ensures KeyReplaced(t, channel, thread, replies, result, k) {
      assert KeyReplaced(merged, channel, thread, replies, result, k);
      assert Get(merged.messages, k) == MessageAfter(t, replies, k);
    }
    forall a ensures AttachmentAfter(merged, replies, a) == AttachmentAfter(t, replies, a) {
      assert Get(merged.attachments, a) == AttachmentAfter(t, replies, a);
    }
  }

  /** What is left of an attachment once the observed messages lose the files they no longer have. */
  lemma AfterStaleDelete(t: Tables, rows: seq<MessageRow>, a: AttachmentKey)
    requires Distinct(rows)
    ensures AttachmentAfter(t, rows, a)
         == if (exists r :: r in rows && r.key == a.message) && !(exists p :: p in AllParams(rows) && p.key == a)
            then None else Get(Upserted(t.attachments, AllParams(rows)), a)
  {
    UpsertedGet(t.attachments, AllParams(rows), a);
    AllParamsLast(rows, a);
    LastParamFound(AllParams(rows), a);
    LastRowFound(rows, a.message);
  }

  lemma {:induction false} LastParamFound(ps: seq<Param>, a: AttachmentKey)
    ensures LastParam(ps, a).Some? <==> exists p :: p in ps && p.key == a
  {
    if ps != [] {
      LastParamFound(ps[..|ps| - 1], a);
      assert ps == ps[..|ps| - 1] + [ps[|ps| - 1]];
      if LastParam(ps, a).Some? && ps[|ps| - 1].key != a {
        var p :| p in ps[..|ps| - 1] && p.key == a;
        assert p in ps;
      }
    }
  }

  // ---- What the reference itself guarantees ------------------------------------------------------

  /** Attachments of messages outside the batch are untouched. */
  lemma OutsideUntouched(t: Tables, rows: seq<MessageRow>, a: AttachmentKey)
    requires forall r :: r in rows ==> r.key != a.message
    ensures Get(ReconcileAll(t, rows).attachments, a) == Get(t.attachments, a)
    ensures Get(ReconcileAll(t, rows).messages, a.message) == Get(t.messages, a.message)
  {
    ReconcileAllReflects(t, rows);
    LastRowFound(rows, a.message);
  }

  /** Replaying a batch changes nothing: retries are harmless. */
  lemma ReplayHarmless(t: Tables, rows: seq<MessageRow>)
    ensures ReconcileAll(ReconcileAll(t, rows), rows) == ReconcileAll(t, rows)
  {
    var once := ReconcileAll(t, rows);
    ReconcileAllReflects(t, rows);
    ReconcileAllReflects(once, rows);
    forall k ensures MessageAfter(once, rows, k) == MessageAfter(t, rows, k) {}
    forall a ensures AttachmentAfter(once, rows, a) == AttachmentAfter(t, rows, a) {}
    ReflectsUnique(t, rows, once, ReconcileAll(once, rows));
  }

  /** Skipping the dedupe would be wrong: a file dropped between two observations would survive. */
  lemma DedupeIsNeeded() returns (t: Tables, rows: seq<MessageRow>, a: AttachmentKey)
    ensures LastParam(AllParams(rows), a).Some? && LastRow(rows, a.message).Some?
    ensures AttachmentAfter(t, rows, a) == None
  {
    var k := MessageKey("C", "1");
    var m := Message(None, "");
    t := Tables(map[], map[]);
    var first, second := MessageRow(k, m, [File("F", "")]), MessageRow(k, m, []);
    rows := [first, second];
    a := AttachmentKey(k, "F");
    assert first.files[..0] == [];
    assert Params(first) == [Param(a, "")];
    assert rows[..1] == [first] && rows[..1][..0] == [];
    assert AllParams([first]) == [] + Params(first);
    assert AllParams(rows) == AllParams(rows[..1]) + Params(second);
    assert AllParams(rows) == [Param(a, "")];
  }
}
