/**
 * The Google Chat message, attachment and reaction tables and the statements one listed message runs
 * (workflows/google_chat/sync.py, `_upsert_message`, `_replace_attachments`, `_replace_reactions`,
 * `_delete_message`). A failed sync may stop after any of these statements.
 */
module ChatTables {
  import opened Common

  datatype Item = Item(id: string, payload: string)

  /** One listed message; `row` stands for its stored columns, `summarized` for emojiReactionSummaries. */
  datatype Message = Message(
    id: string, deleted: bool, text: string, row: string,
    attachments: seq<Item>, summarized: bool, reactions: seq<Item>, created: Option<int>)

  datatype Kind = Attachment | Reaction

  datatype ItemKey = ItemKey(kind: Kind, message: string, item: string)

  datatype Tables = Tables(messages: map<string, string>, items: map<ItemKey, string>)

  datatype Statement =
    | PutMessage(id: string, row: string)
    | PutItem(id: string, kind: Kind, item: Item)
    | KeepOnly(id: string, kind: Kind, items: set<string>)
    | DropMessage(id: string)

  function Exec(t: Tables, s: Statement): Tables {
    match s
    case PutMessage(id, row) => t.(messages := t.messages[id := row])
    case PutItem(id, kind, item) => t.(items := t.items[ItemKey(kind, id, item.id) := item.payload])
    case KeepOnly(id, kind, items) =>
      t.(items := map k | k in t.items && (k.kind != kind || k.message != id || k.item in items) :: t.items[k])
    case DropMessage(id) => t.(messages := t.messages - {id})
  }

  function ExecAll(t: Tables, ss: seq<Statement>): Tables {
    if ss == [] then t else Exec(ExecAll(t, ss[..|ss| - 1]), ss[|ss| - 1])
  }

  function Puts(id: string, kind: Kind, items: seq<Item>): seq<Statement> {
    seq(|items|, i requires 0 <= i < |items| => PutItem(id, kind, items[i]))
  }

  function Ids(items: seq<Item>): set<string> { set x | x in items :: x.id }

  /** Upsert every listed item of the message, then delete the ones that were not listed. */
  function Replace(id: string, kind: Kind, items: seq<Item>): seq<Statement> {
    Puts(id, kind, items) + [KeepOnly(id, kind, Ids(items))]
  }

  /** Reactions without a resource id are skipped. */
  function Named(items: seq<Item>): seq<Item> {
    if items == [] then []
    else if items[0].id == "" then Named(items[1..]) else [items[0]] + Named(items[1..])
  }

  /** Without reaction summaries nothing is listed, and the stale delete clears what was stored. */
  function Listed(m: Message): seq<Item> { if m.summarized then Named(m.reactions) else [] }

  predicate Stored(m: Message) { m.id != "" && !m.deleted && (m.text != "" || m.attachments != []) }

  /** Everything the loop body of `_sync_space` executes for one message. */
  function Program(m: Message): seq<Statement> {
    if m.id != "" && m.deleted then
      [KeepOnly(m.id, Attachment, {}), KeepOnly(m.id, Reaction, {}), DropMessage(m.id)]
    else if Stored(m) then
      [PutMessage(m.id, m.row)] + Replace(m.id, Attachment, m.attachments) + Replace(m.id, Reaction, Listed(m))
    else []
  }

  /** The whole of a list of messages. */
  function Scan(t: Tables, ms: seq<Message>): Tables
    decreases |ms|
  {
    if ms == [] then t else Scan(ExecAll(t, Program(ms[0])), ms[1..])
  }

  // ---- Slices: what the tables say about one message ---------------------------------------------

  ghost predicate SameFor(a: Tables, b: Tables, id: string) {
    && Get(a.messages, id) == Get(b.messages, id)
    && forall kind, x :: Get(a.items, ItemKey(kind, id, x)) == Get(b.items, ItemKey(kind, id, x))
  }

  lemma SameEverywhere(a: Tables, b: Tables)
    requires forall id :: SameFor(a, b, id)
    ensures a == b
  {
    forall id ensures id in a.messages <==> id in b.messages
              ensures id in a.messages ==> a.messages[id] == b.messages[id]
    {
      assert SameFor(a, b, id);
    }
    forall k: ItemKey ensures k in a.items <==> k in b.items
                      ensures k in a.items ==> a.items[k] == b.items[k]
    {
      assert SameFor(a, b, k.message);
      assert k == ItemKey(k.kind, k.message, k.item);
      assert Get(a.items, ItemKey(k.kind, k.message, k.item)) == Get(b.items, ItemKey(k.kind, k.message, k.item));
    }
    assert a.messages == b.messages && a.items == b.items;
  }

  lemma ExecLocal(t: Tables, s: Statement, id: string)
    requires s.id != id
    ensures SameFor(Exec(t, s), t, id)
  {}

  lemma {:induction false} ExecAllLocal(t: Tables, ss: seq<Statement>, id: string)
    requires forall s :: s in ss ==> s.id != id
    ensures SameFor(ExecAll(t, ss), t, id)
  {
    if ss != [] {
      ExecAllLocal(t, ss[..|ss| - 1], id);
      assert ss[|ss| - 1] in ss;
      ExecLocal(ExecAll(t, ss[..|ss| - 1]), ss[|ss| - 1], id);
    }
  }

  lemma ProgramOwn(m: Message)
    ensures forall s :: s in Program(m) ==> s.id == m.id
  {}

  lemma {:induction false} ExecConcat(t: Tables, a: seq<Statement>, b: seq<Statement>)
    ensures ExecAll(t, a + b) == ExecAll(ExecAll(t, a), b)
  {
    if b == [] {
      assert a + b == a;
    } else {
      assert (a + b)[..|a + b| - 1] == a + b[..|b| - 1];
      ExecConcat(t, a, b[..|b| - 1]);
    }
  }

  function LastItem(items: seq<Item>, x: string): Option<string> {
    if items == [] then None
    else if items[|items| - 1].id == x then Some(items[|items| - 1].payload)
    else LastItem(items[..|items| - 1], x)
  }

  lemma {:induction false} LastItemNamed(items: seq<Item>, x: string)
    ensures LastItem(items, x).Some? <==> x in Ids(items)
  {
    if items != [] {
      LastItemNamed(items[..|items| - 1], x);
      assert items == items[..|items| - 1] + [items[|items| - 1]];
      assert Ids(items) == Ids(items[..|items| - 1]) + {items[|items| - 1].id};
    }
  }

  lemma {:induction false} PutsGet(t: Tables, id: string, kind: Kind, items: seq<Item>, k: ItemKey)
    ensures ExecAll(t, Puts(id, kind, items)).messages == t.messages
    ensures Get(ExecAll(t, Puts(id, kind, items)).items, k)
         == if k.kind == kind && k.message == id && LastItem(items, k.item).Some? then LastItem(items, k.item)
            else Get(t.items, k)
  {
    if items != [] {
      var front := items[..|items| - 1];
      PutsGet(t, id, kind, front, k);
      assert Puts(id, kind, items)[..|items| - 1] == Puts(id, kind, front);
    }
  }

  /** Replacing a message's items leaves exactly the listed ones, whatever was there before. */
  lemma ReplaceGet(t: Tables, id: string, kind: Kind, items: seq<Item>, k: ItemKey)
    ensures ExecAll(t, Replace(id, kind, items)).messages == t.messages
    ensures Get(ExecAll(t, Replace(id, kind, items)).items, k)
         == if k.kind == kind && k.message == id then LastItem(items, k.item) else Get(t.items, k)
  {
    var puts := Puts(id, kind, items);
    ExecConcat(t, puts, [KeepOnly(id, kind, Ids(items))]);
    var mid := ExecAll(t, puts);
    assert ExecAll(mid, []) == mid;
    assert ExecAll(mid, [KeepOnly(id, kind, Ids(items))]) == Exec(mid, KeepOnly(id, kind, Ids(items)));
    PutsGet(t, id, kind, items, k);
    LastItemNamed(items, k.item);
  }

  /** The state a stored message ends in: its row, its attachments and its listed reactions, nothing else. */
  lemma StoredGet(t: Tables, m: Message, kind: Kind, x: string)
    requires Stored(m)
    ensures Get(ExecAll(t, Program(m)).messages, m.id) == Some(m.row)
    ensures Get(ExecAll(t, Program(m)).items, ItemKey(kind, m.id, x))
         == LastItem(if kind.Attachment? then m.attachments else Listed(m), x)
  {
    var first := [PutMessage(m.id, m.row)];
    var a, r := Replace(m.id, Attachment, m.attachments), Replace(m.id, Reaction, Listed(m));
    ExecConcat(t, first + a, r);
    ExecConcat(t, first, a);
    assert ExecAll(t, []) == t;
    var t1 := ExecAll(t, first);
    assert t1 == Exec(t, first[0]);
    var k := ItemKey(kind, m.id, x);
    ReplaceGet(t1, m.id, Attachment, m.attachments, k);
    ReplaceGet(ExecAll(t1, a), m.id, Reaction, Listed(m), k);
  }

  /** A deleted message leaves no message, attachment or reaction behind. */
  lemma DeletedGet(t: Tables, m: Message, kind: Kind, x: string)
    requires m.id != "" && m.deleted
    ensures Get(ExecAll(t, Program(m)).messages, m.id) == None
    ensures Get(ExecAll(t, Program(m)).items, ItemKey(kind, m.id, x)) == None
  {
    var p := Program(m);
    var t1 := Exec(t, p[0]);
    var t2 := Exec(t1, p[1]);
    assert p[..2][..1][..0] == [] && ExecAll(t, []) == t;
    assert p[..2][..1][0] == p[0] && ExecAll(t, p[..2][..1]) == t1;
    assert ExecAll(t, p[..2]) == t2;
    assert ExecAll(t, p) == Exec(t2, p[2]);
  }

  /** `v` is the payload of the last listed item with this id, None when there is none. */
  ghost predicate LastListed(items: seq<Item>, x: string, v: Option<string>) {
    && (v.Some? <==> exists i :: 0 <= i < |items| && items[i].id == x)
    && forall i :: 0 <= i < |items| && items[i].id == x && (forall j :: i < j < |items| ==> items[j].id != x) ==>
         v == Some(items[i].payload)
  }

  lemma {:induction false} LastItemAt(items: seq<Item>, x: string, i: nat)
    requires i < |items| && items[i].id == x && forall j :: i < j < |items| ==> items[j].id != x
    ensures LastItem(items, x) == Some(items[i].payload)
  {
    if i < |items| - 1 {
      LastItemAt(items[..|items| - 1], x, i);
    }
  }

  lemma LastItemListed(items: seq<Item>, x: string)
    ensures LastListed(items, x, LastItem(items, x))
  {
    LastItemNamed(items, x);
    forall i | 0 <= i < |items| && items[i].id == x && (forall j :: i < j < |items| ==> items[j].id != x)
      ensures LastItem(items, x) == Some(items[i].payload)
    {
      LastItemAt(items, x, i);
    }
  }

  lemma {:induction false} NamedLast(items: seq<Item>, x: string)
    ensures LastItem(Named(items), x) == if x == "" then None else LastItem(items, x)
  {
    if items != [] {
      NamedLast(items[1..], x);
      LastItemCons(items[0], items[1..], x);
      assert items == [items[0]] + items[1..];
      if items[0].id != "" {
        LastItemCons(items[0], Named(items[1..]), x);
      }
    }
  }

  lemma {:induction false} LastItemCons(item: Item, rest: seq<Item>, x: string)
    ensures LastItem([item] + rest, x)
         == if LastItem(rest, x).Some? then LastItem(rest, x) else if item.id == x then Some(item.payload) else None
  {
    if rest == [] {
      assert [item] + rest == [item] && [item][..0] == [];
    } else {
      LastItemCons(item, rest[..|rest| - 1], x);
      assert ([item] + rest)[..|rest|] == [item] + rest[..|rest| - 1];
    }
  }

  /** The reactions stored: those with an id when there are summaries, none without. */
  lemma ReactionsListed(m: Message, x: string)
    ensures m.summarized && x != "" ==> LastListed(m.reactions, x, LastItem(Listed(m), x))
    ensures !m.summarized || x == "" ==> LastItem(Listed(m), x).None?
  {
    LastItemListed(m.reactions, x);
    NamedLast(m.reactions, x);
  }

  /**
   * What one listed message does, from its own fields. A tombstone leaves nothing of the message. A message with an
   * id and some text or attachment leaves its row, its attachments and, when it has reaction summaries, its
   * reactions with an id, each with the payload of its last listing; without summaries it leaves no reaction.
   * Any other message changes nothing.
   */
  lemma MessageDoes(t: Tables, m: Message, x: string)
    ensures
      var u := ExecAll(t, Program(m));
      var row := Get(u.messages, m.id);
      var attachment, reaction := Get(u.items, ItemKey(Attachment, m.id, x)), Get(u.items, ItemKey(Reaction, m.id, x));
      if m.id != "" && m.deleted then row.None? && attachment.None? && reaction.None?
      else if m.id != "" && (m.text != "" || m.attachments != []) then
        && row == Some(m.row) && LastListed(m.attachments, x, attachment)
        && (if m.summarized && x != "" then LastListed(m.reactions, x, reaction) else reaction.None?)
      else u == t
  {
    if m.id != "" && m.deleted {
      DeletedGet(t, m, Attachment, x);
      DeletedGet(t, m, Reaction, x);
    } else if m.id != "" && (m.text != "" || m.attachments != []) {
      StoredGet(t, m, Attachment, x);
      StoredGet(t, m, Reaction, x);
      LastItemListed(m.attachments, x);
      ReactionsListed(m, x);
    } else {
      assert Program(m) == [];
    }
  }

  /** A message that runs anything decides its slice completely. */
  lemma ProgramDetermined(t: Tables, u: Tables, m: Message)
    requires Program(m) != []
    ensures SameFor(ExecAll(t, Program(m)), ExecAll(u, Program(m)), m.id)
  {
    forall kind, x
      ensures Get(ExecAll(t, Program(m)).messages, m.id) == Get(ExecAll(u, Program(m)).messages, m.id)
      ensures Get(ExecAll(t, Program(m)).items, ItemKey(kind, m.id, x))
           == Get(ExecAll(u, Program(m)).items, ItemKey(kind, m.id, x))
    {
      if Stored(m) {
        StoredGet(t, m, kind, x);
        StoredGet(u, m, kind, x);
      } else {
        DeletedGet(t, m, kind, x);
        DeletedGet(u, m, kind, x);
      }
    }
    var kind, x := Attachment, "";
    assert Get(ExecAll(t, Program(m)).items, ItemKey(kind, m.id, x))
        == Get(ExecAll(u, Program(m)).items, ItemKey(kind, m.id, x));
  }

  // ---- Scans ---------------------------------------------------------------------------------------

  predicate Touches(m: Message, id: string) { m.id == id && Program(m) != [] }

  predicate Touched(ms: seq<Message>, id: string) { exists m :: m in ms && Touches(m, id) }

  /** Two tables that differ at most on messages the list touches. */
  ghost predicate Near(a: Tables, b: Tables, ms: seq<Message>) {
    forall id {:trigger SameFor(a, b, id)} :: !Touched(ms, id) ==> SameFor(a, b, id)
  }

  lemma {:induction false} ScanConcat(t: Tables, a: seq<Message>, b: seq<Message>)
    ensures Scan(t, a + b) == Scan(Scan(t, a), b)
    decreases |a|
  {
    if a == [] {
      assert a + b == b;
    } else {
      assert (a + b)[1..] == a[1..] + b;
      ScanConcat(ExecAll(t, Program(a[0])), a[1..], b);
    }
  }

  /** A statement of a listed message keeps the tables near. */
  lemma NearStep(base: Tables, t: Tables, ms: seq<Message>, m: Message, s: Statement)
    requires Near(base, t, ms) && m in ms && s in Program(m)
    ensures Near(base, Exec(t, s), ms)
  {
    ProgramOwn(m);
    forall id | !Touched(ms, id) ensures SameFor(base, Exec(t, s), id) {
      assert !Touches(m, id);
      ExecLocal(t, s, id);
      assert SameFor(base, t, id);
    }
  }

  /** A scan depends only on what it does not touch: replaying it over a half-done attempt changes nothing. */
  lemma {:induction false} ScanDetermined(t: Tables, u: Tables, ms: seq<Message>)
    requires Near(t, u, ms)
    ensures Scan(t, ms) == Scan(u, ms)
    decreases |ms|
  {
    if ms == [] {
      forall id ensures SameFor(t, u, id) {
        assert !Touched(ms, id);
      }
      SameEverywhere(t, u);
    } else {
      var m := ms[0];
      var t1, u1 := ExecAll(t, Program(m)), ExecAll(u, Program(m));
      ProgramOwn(m);
      forall id | !Touched(ms[1..], id) ensures SameFor(t1, u1, id) {
        if Touches(m, id) {
          ProgramDetermined(t, u, m);
        } else {
          assert !Touched(ms, id) by {
            assert ms == [m] + ms[1..];
          }
          assert SameFor(t, u, id);
          ExecAllLocal(t, Program(m), id);
          ExecAllLocal(u, Program(m), id);
        }
      }
      ScanDetermined(t1, u1, ms[1..]);
    }
  }

  lemma {:induction false} ScanNear(t: Tables, ms: seq<Message>)
    ensures Near(t, Scan(t, ms), ms)
    decreases |ms|
  {
    if ms == [] {
    } else {
      var m := ms[0];
      var t1 := ExecAll(t, Program(m));
      ScanNear(t1, ms[1..]);
      ProgramOwn(m);
      forall id | !Touched(ms, id) ensures SameFor(t, Scan(t, ms), id) {
        assert !Touches(m, id);
        assert forall x :: x in ms[1..] ==> x in ms;
        assert !Touched(ms[1..], id);
        ExecAllLocal(t, Program(m), id);
        assert SameFor(t1, Scan(t1, ms[1..]), id);
      }
    }
  }

  /** Scanning twice is scanning once. */
  lemma ScanIdempotent(t: Tables, ms: seq<Message>)
    ensures Scan(Scan(t, ms), ms) == Scan(t, ms)
  {
    ScanNear(t, ms);
    ScanDetermined(t, Scan(t, ms), ms);
  }
}
