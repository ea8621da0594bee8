/**
 * The embedding workflow (workflows/company_context_embeddings.py): load pending documents, embed them in
 * API batches with a per-document fallback, store one row per document, and requeue while batches are full.
 */
module Embeddings {
  import opened Common

  datatype Kind = CompanyContext | GoogleDocs | Granola

  datatype DocId = DocId(kind: Kind, id: string)

  datatype Doc = Doc(title: string, body: string, hash: string)

  type Docs = map<DocId, Doc>

  type Vector = seq<int>

  datatype Result = Embedded(vector: Vector) | Failed(reason: string)

  datatype Entry = Entry(model: string, hash: string, result: Result)

  type Table = map<DocId, Entry>

  const API_BATCH := 25
  const MAX_CHARS := 8192
  const MAX_REASON := 1000

  // ---- Text ------------------------------------------------------------------------------------------

  /** The characters `str.strip` removes: Unicode white space and the ASCII separators. */
  predicate IsSpace(c: char) { UnicodeSpace(c) || '\U{1C}' <= c <= '\U{1F}' }

  lemma IsSpaceExactly(c: char)
    ensures IsSpace(c) <==> c in WHITE_SPACE || c in "\U{1C}\U{1D}\U{1E}\U{1F}"
  {
    UnicodeSpaceExactly(c);
  }

  predicate Blank(s: string) { forall c :: c in s ==> IsSpace(c) }

  /** `btrim(s) <> ''` is false: only the space character counts for SQL. */
  predicate SqlBlank(s: string) { forall c :: c in s ==> c == ' ' }

  function Strip(s: string): (r: string)
    ensures r == "" <==> Blank(s)
  {
    if s == "" then ""
    else if IsSpace(s[0]) then
      assert s == [s[0]] + s[1..];
      Strip(s[1..])
    else if IsSpace(s[|s| - 1]) then
      assert s == s[..|s| - 1] + [s[|s| - 1]];
      Strip(s[..|s| - 1])
    else s
  }

  /** Only whitespace is taken off, and none is left at either end. */
  lemma {:induction false} StripExact(s: string) returns (i: nat, j: nat)
    ensures i <= j <= |s| && Strip(s) == s[i..j]
    ensures Blank(s[..i]) && Blank(s[j..])
    ensures i < j ==> !IsSpace(s[i]) && !IsSpace(s[j - 1])
    decreases |s|
  {
    if s == "" {
      i, j := 0, 0;
    } else if IsSpace(s[0]) {
      i, j := StripExact(s[1..]);
      WiderLeft(s, i, j);
      i, j := i + 1, j + 1;
    } else if IsSpace(s[|s| - 1]) {
      i, j := StripExact(s[..|s| - 1]);
      WiderRight(s, i, j);
    } else {
      i, j := 0, |s|;
      assert s[0..|s|] == s;
    }
  }

  lemma WiderLeft(s: string, i: nat, j: nat)
    requires s != "" && IsSpace(s[0]) && i <= j < |s| && Blank(s[1..][..i])
    ensures s[i + 1..j + 1] == s[1..][i..j] && Blank(s[..i + 1]) && s[j + 1..] == s[1..][j..]
  {
    assert s[..i + 1] == [s[0]] + s[1..][..i];
  }

  lemma WiderRight(s: string, i: nat, j: nat)
    requires s != "" && IsSpace(s[|s| - 1]) && i <= j < |s| && Blank(s[..|s| - 1][j..])
    ensures s[i..j] == s[..|s| - 1][i..j] && s[..i] == s[..|s| - 1][..i] && Blank(s[j..])
  {
    assert s[j..] == s[..|s| - 1][j..] + [s[|s| - 1]];
  }

  predicate EndsWith(s: string, t: string) { |t| <= |s| && s[|s| - |t|..] == t }

  /** `_embedding_text` */
  function EmbeddingText(doc: Doc, maxChars: nat): (text: string)
    ensures maxChars > 0 ==> (text == "" <==> Blank(doc.title) && Blank(doc.body))
    ensures |text| <= maxChars && |text| <= MAX_CHARS
  {
    var title, body := Strip(doc.title), Strip(doc.body);
    var joined := if title == "" then body else if body == "" then title else title + "\n\n" + body;
    joined[..Min(|joined|, Min(maxChars, MAX_CHARS))]
  }

  /** The title comes first, and the body is whole at the end when both fit. */
  lemma TextShows(doc: Doc, maxChars: nat)
    ensures
      var title, body, text := Strip(doc.title), Strip(doc.body), EmbeddingText(doc, maxChars);
      && (|title| <= |text| ==> title <= text)
      && (|title| + 2 + |body| <= Min(maxChars, MAX_CHARS) ==> EndsWith(text, body))
  {}

  /** The text is cut at the limit and nowhere else: as much of title, blank line and body as fits, of one part if one is blank. */
  lemma TextCut(doc: Doc, maxChars: nat)
    ensures
      var title, body, text := Strip(doc.title), Strip(doc.body), EmbeddingText(doc, maxChars);
      var whole := if title == "" then body else if body == "" then title else title + "\n\n" + body;
      text <= whole && |text| == Min(|whole|, Min(maxChars, 8192))
  {}

  // ---- The API -----------------------------------------------------------------------------------------

  datatype Answer = Answer(index: nat, vector: Vector)

  datatype Response = Data(answers: seq<Answer>) | BadRequest

  /** `embed(t)` is the vector of an acceptable text, `reason(t)` why the text is refused, `respond` a request. */
  datatype Api = Api(embed: string -> Option<Vector>, reason: string -> string, respond: seq<string> -> Response)

  /**
   * Nothing is said about when a request of several texts is refused, nor about answers being complete: only
   * that a text is refused alone when it is not acceptable, and that an answer belongs to the text it names.
   */
  ghost predicate Sensible(api: Api) {
    && (forall t :: api.respond([t]).BadRequest? <==> api.embed(t).None?)
    && (forall inputs :: api.respond(inputs).Data? ==> Truthful(api, inputs, api.respond(inputs).answers))
  }

  ghost predicate Truthful(api: Api, inputs: seq<string>, answers: seq<Answer>) {
    forall a :: a in answers && a.index < |inputs| ==> api.embed(inputs[a.index]) == Some(a.vector)
  }

  ghost predicate Indexed(answers: seq<Answer>, i: nat) { exists a :: a in answers && a.index == i }

  /** The answers name every index below `n` and no other. */
  ghost predicate Complete(answers: seq<Answer>, n: nat) {
    && (forall a :: a in answers ==> a.index < n)
    && (forall i: nat :: i < n ==> Indexed(answers, i))
  }

  /** `set(range(n))` */
  function UpTo(n: nat): (s: set<nat>)
    ensures forall i: nat :: i in s <==> i < n
  {
    if n == 0 then {} else UpTo(n - 1) + {n - 1}
  }

  /** `_generate_embeddings`: answers may come in any order and repeat, but must name each index and no other. */
  method OrderAnswers(answers: seq<Answer>, n: nat) returns (vectors: Option<seq<Vector>>)
    ensures vectors.Some? <==> Complete(answers, n)
    ensures vectors.Some? ==> |vectors.value| == n
    ensures vectors.Some? ==> forall i :: 0 <= i < n ==> Answer(i, vectors.value[i]) in answers
  {
    var byIndex: map<nat, Vector> := map[];
    for k := 0 to |answers|
      invariant forall a :: a in answers[..k] ==> a.index in byIndex
      invariant forall i :: i in byIndex ==> Answer(i, byIndex[i]) in answers
    {
      byIndex := byIndex[answers[k].index := answers[k].vector];
    }
    assert answers[..|answers|] == answers;
    assert Complete(answers, n) ==> byIndex.Keys == UpTo(n) by {
      assert forall i: nat :: Indexed(answers, i) ==> i in byIndex.Keys;
    }
    if byIndex.Keys != UpTo(n) {
      return None;
    }
    forall i: nat | i < n ensures Indexed(answers, i) {
      assert i in byIndex.Keys;
    }
    vectors := Some(seq(n, i requires 0 <= i < n && i in byIndex => byIndex[i]));
  }

  // ---- One document at a time ----------------------------------------------------------------------------

  datatype Config = Config(api: Api, docs: Docs, model: string, maxChars: nat)

  function Clip(s: string): string { s[..Min(|s|, MAX_REASON)] }

  const EMPTY := "empty_input: document contains no non-whitespace text"

  /** The row a document deserves: its own embedding, or why it cannot have one. */
  function Resolved(cfg: Config, id: DocId): Entry
    requires id in cfg.docs
  {
    var doc := cfg.docs[id];
    var text := EmbeddingText(doc, cfg.maxChars);
    var result :=
      if text == "" then Failed(Clip(EMPTY))
      else if cfg.api.embed(text).Some? then Embedded(cfg.api.embed(text).value)
      else Failed(Clip(cfg.api.reason(text)));
    Entry(cfg.model, doc.hash, result)
  }

  /** The reference: resolve the loaded documents one at a time, in order. */
  function OneByOne(cfg: Config, t: Table, rows: seq<DocId>): Table
    requires forall id :: id in rows ==> id in cfg.docs
  {
    if rows == [] then t
    else OneByOne(cfg, t, rows[..|rows| - 1])[rows[|rows| - 1] := Resolved(cfg, rows[|rows| - 1])]
  }

  /** `t` with exactly the documents of `done` resolved. */
  ghost predicate After(cfg: Config, t: Table, done: set<DocId>, result: Table) {
    && done <= cfg.docs.Keys
    && result.Keys == t.Keys + done
    && (forall id :: id in done ==> result[id] == Resolved(cfg, id))
    && (forall id :: id in t && id !in done ==> result[id] == t[id])
  }

  lemma AfterUnique(cfg: Config, t: Table, done: set<DocId>, a: Table, b: Table)
    requires After(cfg, t, done, a) && After(cfg, t, done, b)
    ensures a == b
  {
    forall id | id in a ensures a[id] == b[id] {
      if id !in done {
        assert id in t;
      }
    }
  }

  lemma {:induction false} OneByOneAfter(cfg: Config, t: Table, rows: seq<DocId>)
    requires forall id :: id in rows ==> id in cfg.docs
    ensures After(cfg, t, Ids(rows), OneByOne(cfg, t, rows))
  {
    if rows != [] {
      OneByOneAfter(cfg, t, rows[..|rows| - 1]);
      assert rows == rows[..|rows| - 1] + [rows[|rows| - 1]];
    }
  }

  // ---- Pending documents -----------------------------------------------------------------------------------

  predicate NeedsWork(t: Table, model: string, id: DocId, doc: Doc) {
    && (!SqlBlank(doc.title) || !SqlBlank(doc.body))
    && (id !in t || t[id].model != model || t[id].hash != doc.hash)
  }

  function Pending(cfg: Config, t: Table): set<DocId> {
    set id | id in cfg.docs && NeedsWork(t, cfg.model, id, cfg.docs[id])
  }

  ghost predicate Distinct(rows: seq<DocId>) {
    forall i, j :: 0 <= i < j < |rows| ==> rows[i] != rows[j]
  }

  /** What `_load_documents` may answer: distinct pending documents, as many as there are up to the limit. */
  ghost predicate IsLoad(cfg: Config, t: Table, batch: nat, rows: seq<DocId>) {
    && Distinct(rows)
    && (forall id :: id in rows ==> id in Pending(cfg, t))
    && |rows| == Min(batch, |Pending(cfg, t)|)
  }

  /** Some character other than a space. */
  predicate HasInk(s: string) { exists i :: 0 <= i < |s| && s[i] != ' ' }

  /** A document is pending exactly when it says something and has no row for this model and this content. */
  lemma PendingExactly(cfg: Config, t: Table, id: DocId)
    requires id in cfg.docs
    ensures id in Pending(cfg, t) <==>
      && (HasInk(cfg.docs[id].title) || HasInk(cfg.docs[id].body))
      && (id !in t || t[id].model != cfg.model || t[id].hash != cfg.docs[id].hash)
  {
    InkExactly(cfg.docs[id].title);
    InkExactly(cfg.docs[id].body);
  }

  lemma InkExactly(s: string)
    ensures HasInk(s) <==> !SqlBlank(s)
  {
    if HasInk(s) {
      var i :| 0 <= i < |s| && s[i] != ' ';
      assert s[i] in s;
    }
  }

  /** A resolved document becomes pending again exactly when the model or its content changes, and it says something. */
  lemma PendingAgain(cfg: Config, changed: Config, t: Table, id: DocId)
    requires id in cfg.docs && id in changed.docs && id in t && t[id] == Resolved(cfg, id)
    ensures id !in Pending(cfg, t)
    ensures id in Pending(changed, t) <==>
      && (HasInk(changed.docs[id].title) || HasInk(changed.docs[id].body))
      && (changed.model != cfg.model || changed.docs[id].hash != cfg.docs[id].hash)
  {
    PendingExactly(cfg, t, id);
    PendingExactly(changed, t, id);
  }

  /** Resolving a document settles it; nothing else changes state. */
  lemma PendingAfter(cfg: Config, t: Table, done: set<DocId>, result: Table)
    requires After(cfg, t, done, result)
    ensures Pending(cfg, result) == Pending(cfg, t) - done
  {}

  // ---- One run ----------------------------------------------------------------------------------------------

  ghost function Ids(rows: seq<DocId>): set<DocId> { set id | id in rows }

  lemma AfterThen(cfg: Config, t: Table, a: set<DocId>, u: Table, b: set<DocId>, v: Table)
    requires After(cfg, t, a, u) && After(cfg, u, b, v)
    ensures After(cfg, t, a + b, v)
  {}

  lemma AfterOne(cfg: Config, t: Table, done: set<DocId>, u: Table, id: DocId)
    requires After(cfg, t, done, u) && id in cfg.docs
    ensures After(cfg, t, done + {id}, u[id := Resolved(cfg, id)])
  {}

  lemma IdsNext(rows: seq<DocId>, n: nat)
    requires n < |rows|
    ensures Ids(rows[..n + 1]) == Ids(rows[..n]) + {rows[n]}
  {
    assert rows[..n + 1] == rows[..n] + [rows[n]];
  }

  lemma IdsAppend(rows: seq<DocId>, id: DocId)
    ensures Ids(rows + [id]) == Ids(rows) + {id}
  {}

  lemma IdsJoin(rows: seq<DocId>, from: nat, to: nat)
    requires from <= to <= |rows|
    ensures Ids(rows[..to]) == Ids(rows[..from]) + Ids(rows[from..to])
    ensures Ids(rows[..to]) <= Ids(rows)
  {
    assert rows[..to] == rows[..from] + rows[from..to];
  }

  predicate HasText(cfg: Config, id: DocId) {
    id in cfg.docs && EmbeddingText(cfg.docs[id], cfg.maxChars) != ""
  }

  ghost predicate AllHaveText(cfg: Config, rows: seq<DocId>) {
    forall i :: 0 <= i < |rows| ==> HasText(cfg, rows[i])
  }

  ghost predicate Within(group: seq<nat>, n: nat) { forall j :: 0 <= j < |group| ==> group[j] < n }

  /** `vectors[i]` is what document `rows[i]` deserves. */
  ghost predicate Deserved(cfg: Config, rows: seq<DocId>, vectors: seq<Vector>) {
    && |rows| == |vectors|
    && forall i :: 0 <= i < |rows| ==>
         rows[i] in cfg.docs && Resolved(cfg, rows[i]).result == Embedded(vectors[i])
  }

  /** The positions, in order, of the first `n` rows that come from `kind`. */
  function PositionsOf(rows: seq<DocId>, kind: Kind, n: nat): seq<nat>
    requires n <= |rows|
  {
    if n == 0 then []
    else PositionsOf(rows, kind, n - 1) + if rows[n - 1].kind == kind then [n - 1] else []
  }

  lemma {:induction false} PositionsExact(rows: seq<DocId>, kind: Kind, n: nat, i: nat)
    requires n <= |rows|
    ensures i in PositionsOf(rows, kind, n) <==> i < n && rows[i].kind == kind
  {
    if n > 0 {
      PositionsExact(rows, kind, n - 1, i);
    }
  }

  lemma PositionsWithin(rows: seq<DocId>, kind: Kind)
    ensures Within(PositionsOf(rows, kind, |rows|), |rows|)
  {
    var group := PositionsOf(rows, kind, |rows|);
    forall j | 0 <= j < |group| ensures group[j] < |rows| {
      PositionsExact(rows, kind, |rows|, group[j]);
    }
  }

  ghost predicate Grouping(rows: seq<DocId>, n: nat, groups: map<Kind, seq<nat>>)
    requires n <= |rows|
  {
    && groups.Keys == {CompanyContext, GoogleDocs, Granola}
    && forall k :: k in groups ==> groups[k] == PositionsOf(rows, k, n)
  }

  lemma GroupingNext(rows: seq<DocId>, n: nat, groups: map<Kind, seq<nat>>)
    requires n < |rows| && Grouping(rows, n, groups)
    ensures rows[n].kind in groups
    ensures Grouping(rows, n + 1, groups[rows[n].kind := groups[rows[n].kind] + [n]])
  {
    var kind := rows[n].kind;
    assert kind.CompanyContext? || kind.GoogleDocs? || kind.Granola?;
  }

  /** The positions of the rows of each source, in order. */
  method GroupBySource(rows: seq<DocId>) returns (groups: map<Kind, seq<nat>>)
    ensures Grouping(rows, |rows|, groups)
  {
    groups := map[CompanyContext := [], GoogleDocs := [], Granola := []];
    for n := 0 to |rows|
      invariant Grouping(rows, n, groups)
    {
      var kind := rows[n].kind;
      GroupingNext(rows, n, groups);
      groups := groups[kind := groups[kind] + [n]];
    }
  }

  lemma GroupsCover(rows: seq<DocId>, groups: map<Kind, seq<nat>>)
    requires Grouping(rows, |rows|, groups)
    ensures WriteSet(rows, groups[CompanyContext]) + WriteSet(rows, groups[GoogleDocs])
            + WriteSet(rows, groups[Granola]) == Ids(rows)
    ensures Within(groups[CompanyContext], |rows|) && Within(groups[GoogleDocs], |rows|) && Within(groups[Granola], |rows|)
  {
    forall id | id in rows
      ensures id in WriteSet(rows, groups[CompanyContext]) + WriteSet(rows, groups[GoogleDocs]) + WriteSet(rows, groups[Granola])
    {
      var i :| 0 <= i < |rows| && rows[i] == id;
      PositionsExact(rows, id.kind, |rows|, i);
      assert id.kind.CompanyContext? || id.kind.GoogleDocs? || id.kind.Granola?;
    }
    PositionsWithin(rows, CompanyContext);
    PositionsWithin(rows, GoogleDocs);
    PositionsWithin(rows, Granola);
  }

  /** A failure with as much of the reason as fits. */
  predicate Explains(result: Result, reason: string) {
    result.Failed? && result.reason <= reason && |result.reason| == Min(|reason|, MAX_REASON)
  }

  /** A document that deserves this failure is resolved by it. */
  lemma FailureResolves(cfg: Config, t: Table, id: DocId, u: Table, reason: string)
    requires id in cfg.docs && Resolved(cfg, id).result == Failed(Clip(reason))
    requires u.Keys == t.Keys + {id} && forall k :: k in t && k != id ==> u[k] == t[k]
    requires u[id].model == cfg.model && u[id].hash == cfg.docs[id].hash && Explains(u[id].result, reason)
    ensures u == t[id := Resolved(cfg, id)]
  {
    assert u[id].result.reason == Clip(reason);
  }

  /** After the first `n` rows: the textless ones are resolved, the others kept. */
  ghost predicate Prepared(cfg: Config, base: Table, t: Table, rows: seq<DocId>, n: nat, prepared: seq<DocId>, done: set<DocId>) {
    n <= |rows| && After(cfg, base, done, t) && done + Ids(prepared) == Ids(rows[..n]) && AllHaveText(cfg, prepared)
  }

  lemma PrepareText(cfg: Config, base: Table, t: Table, rows: seq<DocId>, n: nat, prepared: seq<DocId>, done: set<DocId>)
    requires n < |rows| && Prepared(cfg, base, t, rows, n, prepared, done) && HasText(cfg, rows[n])
    ensures Prepared(cfg, base, t, rows, n + 1, prepared + [rows[n]], done)
  {
    IdsNext(rows, n);
    IdsAppend(prepared, rows[n]);
  }

  lemma PrepareFailure(cfg: Config, base: Table, t: Table, rows: seq<DocId>, n: nat, prepared: seq<DocId>, done: set<DocId>)
    requires n < |rows| && Prepared(cfg, base, t, rows, n, prepared, done) && rows[n] in cfg.docs
    ensures Prepared(cfg, base, t[rows[n] := Resolved(cfg, rows[n])], rows, n + 1, prepared, done + {rows[n]})
  {
    IdsNext(rows, n);
    AfterOne(cfg, base, done, t, rows[n]);
  }

  class Store {
    var table: Table

    /** `_store_embedding_failure` */
    method StoreFailure(cfg: Config, id: DocId, reason: string)
      requires id in cfg.docs
      modifies this
      ensures Pending(cfg, table) == Pending(cfg, old(table)) - {id}
      ensures table.Keys == old(table).Keys + {id} && forall k :: k in old(table) && k != id ==> table[k] == old(table)[k]
      ensures table[id].model == cfg.model && table[id].hash == cfg.docs[id].hash && Explains(table[id].result, reason)
    {
      table := table[id := Entry(cfg.model, cfg.docs[id].hash, Failed(Clip(reason)))];
    }

    /** `_store_embeddings`: rows are grouped by source before they are written. */
    method StoreEmbeddings(cfg: Config, rows: seq<DocId>, vectors: seq<Vector>)
      requires Deserved(cfg, rows, vectors)
      modifies this
      ensures After(cfg, old(table), Ids(rows), table)
    {
      var groups := GroupBySource(rows);
      ghost var a := WriteSet(rows, groups[CompanyContext]);
      ghost var b := WriteSet(rows, groups[GoogleDocs]);
      ghost var c := WriteSet(rows, groups[Granola]);
      GroupsCover(rows, groups);
      StoreGroup(cfg, rows, vectors, groups[CompanyContext]);
      ghost var first := table;
      StoreGroup(cfg, rows, vectors, groups[GoogleDocs]);
      AfterThen(cfg, old(table), a, first, b, table);
      ghost var second := table;
      StoreGroup(cfg, rows, vectors, groups[Granola]);
      AfterThen(cfg, old(table), a + b, second, c, table);
    }

    /** One `executemany`. */
    method StoreGroup(cfg: Config, rows: seq<DocId>, vectors: seq<Vector>, group: seq<nat>)
      requires Deserved(cfg, rows, vectors) && Within(group, |rows|)
      modifies this
      ensures After(cfg, old(table), WriteSet(rows, group), table)
    {
      for n := 0 to |group|
        invariant After(cfg, old(table), WriteSet(rows, group[..n]), table)
      {
        var i := group[n];
        WriteSetNext(rows, group, n);
        AfterOne(cfg, old(table), WriteSet(rows, group[..n]), table, rows[i]);
        table := table[rows[i] := Entry(cfg.model, cfg.docs[rows[i]].hash, Embedded(vectors[i]))];
      }
      assert group[..|group|] == group;
    }

    /**
     * The fallback after a rejected batch request: each document on its own. An incomplete answer aborts the
     * run; `done` is what was resolved by then.
     */
    method EmbedSingly(cfg: Config, rows: seq<DocId>)
      returns (embedded: nat, failed: nat, aborted: bool, ghost done: set<DocId>)
      requires Sensible(cfg.api) && AllHaveText(cfg, rows)
      modifies this
      ensures After(cfg, old(table), done, table)
      ensures done <= Ids(rows)
      ensures !aborted ==> done == Ids(rows) && embedded + failed == |rows|
    {
      embedded, failed, aborted, done := 0, 0, false, {};
      for n := 0 to |rows|
        invariant After(cfg, old(table), done, table)
        invariant done == Ids(rows[..n])
        invariant embedded + failed == n
      {
        var id := rows[n];
        IdsNext(rows, n);
        AfterOne(cfg, old(table), done, table, id);
        ghost var before := table;
        var text := EmbeddingText(cfg.docs[id], cfg.maxChars);
        var response := cfg.api.respond([text]);
        if response.BadRequest? {
          StoreFailure(cfg, id, cfg.api.reason(text));
          FailureResolves(cfg, before, id, table, cfg.api.reason(text));
          failed := failed + 1;
        } else {
          var vectors := OrderAnswers(response.answers, 1);
          if vectors.None? {
            aborted := true;
            return;
          }
          StoreEmbeddings(cfg, [id], vectors.value);
          embedded := embedded + 1;
        }
        assert Ids([id]) == {id};
        assert After(cfg, before, {id}, table);
        AfterThen(cfg, old(table), done, before, {id}, table);
        done := done + {id};
      }
      assert rows[..|rows|] == rows;
    }

    /** One API batch: the whole request, or the fallback when it is rejected. */
    method EmbedBatch(cfg: Config, rows: seq<DocId>)
      returns (embedded: nat, failed: nat, aborted: bool, ghost done: set<DocId>)
      requires Sensible(cfg.api) && AllHaveText(cfg, rows) && |rows| <= 25
      modifies this
      ensures After(cfg, old(table), done, table)
      ensures done <= Ids(rows)
      ensures !aborted ==> done == Ids(rows) && embedded + failed == |rows|
    {
      var inputs := seq(|rows|, i requires 0 <= i < |rows| && rows[i] in cfg.docs =>
                                  EmbeddingText(cfg.docs[rows[i]], cfg.maxChars));
      var response := cfg.api.respond(inputs);
      if response.BadRequest? {
        embedded, failed, aborted, done := EmbedSingly(cfg, rows);
      } else {
        var vectors := OrderAnswers(response.answers, |rows|);
        if vectors.None? {
          embedded, failed, aborted, done := 0, 0, true, {};
        } else {
          forall i | 0 <= i < |rows|
            ensures rows[i] in cfg.docs && Resolved(cfg, rows[i]).result == Embedded(vectors.value[i])
          {
            assert Answer(i, vectors.value[i]) in response.answers;
            assert HasText(cfg, rows[i]);
          }
          StoreEmbeddings(cfg, rows, vectors.value);
          embedded, failed, aborted, done := |rows|, 0, false, Ids(rows);
        }
      }
    }

    /** The first loop of `handler`: documents without text fail at once, the others are kept. */
    method Prepare(cfg: Config, rows: seq<DocId>) returns (prepared: seq<DocId>, failed: nat, ghost done: set<DocId>)
      requires forall id :: id in rows ==> id in cfg.docs
      modifies this
      ensures After(cfg, old(table), done, table)
      ensures done + Ids(prepared) == Ids(rows)
      ensures |prepared| + failed == |rows|
      ensures AllHaveText(cfg, prepared)
    {
      prepared, failed, done := [], 0, {};
      for n := 0 to |rows|
        invariant Prepared(cfg, old(table), table, rows, n, prepared, done)
        invariant |prepared| + failed == n
      {
        var id := rows[n];
        if EmbeddingText(cfg.docs[id], cfg.maxChars) != "" {
          PrepareText(cfg, old(table), table, rows, n, prepared, done);
          prepared := prepared + [id];
        } else {
          ghost var before := table;
          StoreFailure(cfg, id, EMPTY);
          FailureResolves(cfg, before, id, table, EMPTY);
          PrepareFailure(cfg, old(table), before, rows, n, prepared, done);
          done := done + {id};
          failed := failed + 1;
        }
      }
      assert rows[..|rows|] == rows;
    }

    /** The second loop of `handler`: API batches one after the other. */
    method EmbedAll(cfg: Config, prepared: seq<DocId>)
      returns (embedded: nat, failed: nat, aborted: bool, ghost done: set<DocId>)
      requires Sensible(cfg.api) && AllHaveText(cfg, prepared)
      modifies this
      ensures After(cfg, old(table), done, table)
      ensures done <= Ids(prepared)
      ensures !aborted ==> done == Ids(prepared) && embedded + failed == |prepared|
    {
      embedded, failed, aborted, done := 0, 0, false, {};
      var at := 0;
      while at < |prepared|
        invariant 0 <= at <= |prepared|
        invariant After(cfg, old(table), done, table)
        invariant done == Ids(prepared[..at])
        invariant embedded + failed == at
      {
        var next := Min(at + API_BATCH, |prepared|);
        IdsJoin(prepared, at, next);
        ghost var before := table;
        var e, f, broken;
        ghost var more;
        e, f, broken, more := EmbedBatch(cfg, prepared[at..next]);
        AfterThen(cfg, old(table), done, before, more, table);
        embedded, failed, done := embedded + e, failed + f, done + more;
        if broken {
          aborted := true;
          return;
        }
        at := next;
      }
      assert prepared[..at] == prepared;
    }

    /**
     * One run of `handler` on the documents it loaded. A run that is not aborted resolves every one of them as
     * if each had been embedded alone, and asks for another run exactly when the load was full. An aborted run
     * has done so for some of them and touched no other row.
     */
    method RunOnce(cfg: Config, batch: nat, rows: seq<DocId>)
      returns (embedded: nat, failed: nat, requeued: bool, aborted: bool, ghost done: set<DocId>)
      requires Sensible(cfg.api) && batch > 0 && IsLoad(cfg, table, batch, rows)
      modifies this
      ensures After(cfg, old(table), done, table) && done <= Ids(rows)
      ensures Pending(cfg, table) == Pending(cfg, old(table)) - done
      ensures !aborted ==> table == OneByOne(cfg, old(table), rows) && done == Ids(rows)
      ensures !aborted ==> embedded + failed == |rows|
      ensures requeued <==> !aborted && |rows| == batch
    {
      var prepared, empties;
      ghost var first, more;
      prepared, empties, first := Prepare(cfg, rows);
      ghost var before := table;
      embedded, failed, aborted, more := EmbedAll(cfg, prepared);
      failed := failed + empties;
      requeued := !aborted && |rows| == batch;
      done := first + more;
      AfterThen(cfg, old(table), first, before, more, table);
      PendingAfter(cfg, old(table), done, table);
      if !aborted {
        OneByOneAfter(cfg, old(table), rows);
        AfterUnique(cfg, old(table), Ids(rows), table, OneByOne(cfg, old(table), rows));
      }
    }
  }

  lemma WriteSetNext(rows: seq<DocId>, group: seq<nat>, n: nat)
    requires n < |group| && group[n] < |rows|
    ensures WriteSet(rows, group[..n + 1]) == WriteSet(rows, group[..n]) + {rows[group[n]]}
  {
    assert group[..n + 1] == group[..n] + [group[n]];
  }

  ghost function WriteSet(rows: seq<DocId>, group: seq<nat>): set<DocId>
  {
    set i | i in group && i < |rows| :: rows[i]
  }

  // ---- The requeue chain ----------------------------------------------------------------------------------------

  /** Run `i` of a chain with no edits in between. */
  ghost predicate RunAt(cfg: Config, batch: nat, loads: seq<seq<DocId>>, tables: seq<Table>, i: nat)
    requires i < |loads| && |tables| == |loads| + 1
  {
    && IsLoad(cfg, tables[i], batch, loads[i]) && (forall id :: id in loads[i] ==> id in cfg.docs)
    && tables[i + 1] == OneByOne(cfg, tables[i], loads[i])
  }

  /** Runs that all found a full load, so that each has asked for another. */
  ghost predicate FullRuns(cfg: Config, batch: nat, loads: seq<seq<DocId>>, tables: seq<Table>) {
    && |tables| == |loads| + 1
    && (forall i :: 0 <= i < |loads| ==> RunAt(cfg, batch, loads, tables, i))
    && (forall i :: 0 <= i < |loads| ==> |loads[i]| == batch)
  }

  /** A chain that has ended: each full load requeues, the first short one does not. */
  ghost predicate IsChain(cfg: Config, batch: nat, loads: seq<seq<DocId>>, tables: seq<Table>) {
    && loads != [] && |tables| == |loads| + 1
    && (forall i :: 0 <= i < |loads| ==> RunAt(cfg, batch, loads, tables, i))
    && (forall i :: 0 <= i < |loads| ==> (|loads[i]| == batch <==> i < |loads| - 1))
  }

  lemma {:induction false} DistinctSize(rows: seq<DocId>)
    requires Distinct(rows)
    ensures |Ids(rows)| == |rows|
  {
    if rows != [] {
      var n := |rows| - 1;
      DistinctSize(rows[..n]);
      assert rows == rows[..n] + [rows[n]];
      assert Ids(rows) == Ids(rows[..n]) + {rows[n]};
      assert rows[n] !in rows[..n];
    }
  }

  lemma LoadSettles(cfg: Config, t: Table, batch: nat, rows: seq<DocId>)
    requires IsLoad(cfg, t, batch, rows) && forall id :: id in rows ==> id in cfg.docs
    ensures Pending(cfg, OneByOne(cfg, t, rows)) == Pending(cfg, t) - Ids(rows)
    ensures |Pending(cfg, OneByOne(cfg, t, rows))| == |Pending(cfg, t)| - |rows|
  {
    var done := Ids(rows);
    OneByOneAfter(cfg, t, rows);
    PendingAfter(cfg, t, done, OneByOne(cfg, t, rows));
    DistinctSize(rows);
    assert done <= Pending(cfg, t);
  }

  lemma {:induction false} FullRunsSettle(cfg: Config, batch: nat, loads: seq<seq<DocId>>, tables: seq<Table>, n: nat)
    requires |tables| == |loads| + 1 && n <= |loads|
    requires forall i :: 0 <= i < |loads| ==> RunAt(cfg, batch, loads, tables, i)
    requires forall i :: 0 <= i < n ==> |loads[i]| == batch
    ensures n * batch + |Pending(cfg, tables[n])| == |Pending(cfg, tables[0])|
  {
    if n > 0 {
      FullRunsSettle(cfg, batch, loads, tables, n - 1);
      assert RunAt(cfg, batch, loads, tables, n - 1);
      LoadSettles(cfg, tables[n - 1], batch, loads[n - 1]);
      OneMore(n - 1, batch);
    }
  }

  /** A chain ends: k runs that each asked for another need k batches of pending documents at the start. */
  lemma ChainEnds(cfg: Config, batch: nat, loads: seq<seq<DocId>>, tables: seq<Table>)
    requires FullRuns(cfg, batch, loads, tables)
    ensures |loads| * batch <= |Pending(cfg, tables[0])|
  {
    FullRunsSettle(cfg, batch, loads, tables, |loads|);
  }

  /** A chain that has ended took floor(pending / batch) + 1 runs and left nothing pending. */
  lemma ChainDrains(cfg: Config, batch: nat, loads: seq<seq<DocId>>, tables: seq<Table>)
    requires IsChain(cfg, batch, loads, tables)
    ensures IsQuotient(|loads| - 1, |Pending(cfg, tables[0])|, batch)
    ensures Pending(cfg, tables[|loads|]) == {}
  {
    var n := |loads| - 1;
    FullRunsSettle(cfg, batch, loads, tables, n);
    assert RunAt(cfg, batch, loads, tables, n);
    LoadSettles(cfg, tables[n], batch, loads[n]);
  }

  /** `q` is `n / d` rounded down. */
  ghost predicate IsQuotient(q: int, n: nat, d: nat) { q * d <= n < q * d + d }
}
