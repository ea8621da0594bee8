/**
 * Keyset pages over a source table, ordered by `(updated_at, key)`
 * (workflows/company_context_documents.py, `_page_where`, `_fetch_page`, `_cursor_from_page`).
 * A text key is represented by its rank in the database's collation order; rank 0 is the empty text.
 */
module KeysetPaging {
  import opened Common

  type Time = int
  type Key = nat

  /** One committed version of a source row. `eligible` is the scope's base predicate. */
  datatype Row = Row(stamp: Time, version: nat, eligible: bool)

  type Table = map<Key, Row>

  datatype Entry = Entry(key: Key, row: Row)

  /** `start < updated_at <= end`; a missing start is unbounded. */
  datatype Window = Window(start: Option<Time>, end: Time)

  datatype Position = Position(at: Time, key: Key)

  function PositionOf(k: Key, r: Row): Position { Position(r.stamp, k) }

  function Pos(e: Entry): Position { PositionOf(e.key, e.row) }

  predicate Before(p: Position, q: Position) {
    p.at < q.at || (p.at == q.at && p.key < q.key)
  }

  predicate After(start: Option<Time>, t: Time) { start.None? || start.value < t }

  predicate InWindow(r: Row, w: Window) {
    r.eligible && After(w.start, r.stamp) && r.stamp <= w.end
  }

  predicate Beyond(cursor: Option<Position>, p: Position) {
    cursor.None? || Before(cursor.value, p)
  }

  /** The row predicate of `_page_where`. */
  predicate Matches(k: Key, r: Row, w: Window, cursor: Option<Position>) {
    InWindow(r, w) && Beyond(cursor, PositionOf(k, r))
  }

  predicate Sorted(page: seq<Entry>) {
    forall i, j :: 0 <= i < j < |page| ==>
      Before(Pos(page[i]), Pos(page[j]))
  }

  function LastPosition(page: seq<Entry>): Position
    requires page != []
  {
    Pos(page[|page| - 1])
  }

  /** Every entry of the page is a current, matching row. */
  predicate Sound(t: Table, w: Window, cursor: Option<Position>, page: seq<Entry>) {
    forall e :: e in page ==>
      e.key in t && t[e.key] == e.row && Matches(e.key, e.row, w, cursor)
  }

  /** A matching row is missing from the page only when the page is full and the row sorts after it. */
  predicate Complete(t: Table, w: Window, cursor: Option<Position>, batch: nat, page: seq<Entry>) {
    forall k :: k in t && Matches(k, t[k], w, cursor) ==>
      Entry(k, t[k]) in page
      || (|page| == batch && page != [] && Before(LastPosition(page), PositionOf(k, t[k])))
  }

  /** What `SELECT ... WHERE ... ORDER BY updated_at, key LIMIT batch` may answer. */
  predicate IsPage(t: Table, w: Window, cursor: Option<Position>, batch: nat, page: seq<Entry>) {
    |page| <= batch && Sorted(page) && Sound(t, w, cursor, page) && Complete(t, w, cursor, batch, page)
  }

  /** The keys still to be served beyond a cursor. */
  ghost function Left(t: Table, w: Window, cursor: Option<Position>): set<Key> {
    set k | k in t && Matches(k, t[k], w, cursor)
  }

  /** The least of the given matching keys. */
  method LeastKey(t: Table, keys: set<Key>) returns (least: Key)
    requires keys != {} && keys <= t.Keys
    ensures least in keys
    ensures forall k :: k in keys && k != least ==> Before(PositionOf(least, t[least]), PositionOf(k, t[k]))
  {
    least :| least in keys;
    var rest := keys - {least};
    while rest != {}
      invariant rest <= keys && least in keys && least !in rest
      invariant forall k :: k in keys - rest && k != least ==>
        Before(PositionOf(least, t[least]), PositionOf(k, t[k]))
    {
      var k :| k in rest;
      rest := rest - {k};
      if Before(PositionOf(k, t[k]), PositionOf(least, t[least])) {
        least := k;
      }
    }
  }

  /** `_fetch_page`: the database's answer to one page query. */
  method FetchPage(t: Table, w: Window, cursor: Option<Position>, batch: nat) returns (page: seq<Entry>)
    requires batch > 0
    ensures IsPage(t, w, cursor, batch, page)
  {
    var rest := set k | k in t && Matches(k, t[k], w, cursor);
    page := [];
    while |page| < batch && rest != {}
      invariant |page| <= batch && Sorted(page) && Sound(t, w, cursor, page)
      invariant rest <= t.Keys
      invariant forall k :: k in t && Matches(k, t[k], w, cursor) ==> k in rest || Entry(k, t[k]) in page
      invariant forall k :: k in rest ==> Matches(k, t[k], w, cursor)
      invariant forall k, e :: k in rest && e in page ==>
        Before(Pos(e), PositionOf(k, t[k]))
      decreases rest
    {
      var k := LeastKey(t, rest);
      var entry := Entry(k, t[k]);
      assert forall e :: e in page ==> Before(Pos(e), PositionOf(k, t[k]));
      page := page + [entry];
      rest := rest - {k};
    }
    if rest != {} {
      assert page[|page| - 1] in page;
    }
  }

  /** The row's stamp and key come after the pair `(at, key)` in the order of the query. */
  predicate Follows(r: Row, k: Key, at: Time, key: Key) { at < r.stamp || (at == r.stamp && key < k) }

  /** The row answers the query's conditions, column by column. */
  predicate Answers(r: Row, k: Key, w: Window, cursor: Option<Position>) {
    && r.eligible && (w.start.Some? ==> w.start.value < r.stamp) && r.stamp <= w.end
    && (cursor.Some? ==> Follows(r, k, cursor.value.at, cursor.value.key))
  }

  /** A page, column by column: current answering rows by stamp and then key, and none left out but after a full page. */
  lemma PageExactly(t: Table, w: Window, cursor: Option<Position>, batch: nat, page: seq<Entry>)
    requires IsPage(t, w, cursor, batch, page)
    ensures |page| <= batch
    ensures forall e :: e in page ==> e.key in t && t[e.key] == e.row && Answers(e.row, e.key, w, cursor)
    ensures forall i, j :: 0 <= i < j < |page| ==> Follows(page[j].row, page[j].key, page[i].row.stamp, page[i].key)
    ensures forall k :: k in t && Answers(t[k], k, w, cursor) && Entry(k, t[k]) !in page ==>
      && |page| == batch && page != []
      && (var last := page[|page| - 1]; Follows(t[k], k, last.row.stamp, last.key))
  {
    forall i, j | 0 <= i < j < |page| ensures Follows(page[j].row, page[j].key, page[i].row.stamp, page[i].key) {
      assert Before(Pos(page[i]), Pos(page[j]));
    }
    forall k | k in t && Answers(t[k], k, w, cursor) && Entry(k, t[k]) !in page
      ensures |page| == batch && page != []
      ensures Follows(t[k], k, page[|page| - 1].row.stamp, page[|page| - 1].key)
    {
      assert Matches(k, t[k], w, cursor);
    }
  }

  lemma BeforeIsStrictOrder(p: Position, q: Position, r: Position)
    ensures !Before(p, p)
    ensures Before(p, q) && Before(q, r) ==> Before(p, r)
    ensures Before(p, q) || Before(q, p) || p == q
  {}

  /** Two answers to the same query are the same page: the order is total, so LIMIT is deterministic. */
  lemma {:induction false} PageUnique(t: Table, w: Window, cursor: Option<Position>, batch: nat,
                                      a: seq<Entry>, b: seq<Entry>)
    requires IsPage(t, w, cursor, batch, a) && IsPage(t, w, cursor, batch, b)
    ensures a == b
  {
    if |a| <= |b| {
      PagePrefix(t, w, cursor, batch, a, b, |a|);
      PageLength(t, w, cursor, batch, a, b);
    } else {
      PagePrefix(t, w, cursor, batch, b, a, |b|);
      PageLength(t, w, cursor, batch, b, a);
    }
  }

  lemma EntryIn(page: seq<Entry>, i: nat)
    requires i < |page|
    ensures page[i] in page
  {}

  lemma PageLength(t: Table, w: Window, cursor: Option<Position>, batch: nat, a: seq<Entry>, b: seq<Entry>)
    requires IsPage(t, w, cursor, batch, a) && IsPage(t, w, cursor, batch, b)
    requires |a| <= |b| && a == b[..|a|]
    ensures a == b
  {
    if |a| < |b| {
      EntryIn(b, |a|);
    }
  }

  lemma {:induction false} PagePrefix(t: Table, w: Window, cursor: Option<Position>, batch: nat,
                                      a: seq<Entry>, b: seq<Entry>, n: nat)
    requires IsPage(t, w, cursor, batch, a) && IsPage(t, w, cursor, batch, b)
    requires n <= |a| <= |b|
    ensures a[..n] == b[..n]
  {
    if n > 0 {
      PagePrefix(t, w, cursor, batch, a, b, n - 1);
      PageStep(t, w, cursor, batch, a, b, n - 1);
      PageStep(t, w, cursor, batch, b, a, n - 1);
      assert a[n - 1] in a && b[n - 1] in b;
    }
  }

  /** With equal prefixes, the next entry of one page does not sort before the next entry of the other. */
  lemma PageStep(t: Table, w: Window, cursor: Option<Position>, batch: nat, a: seq<Entry>, b: seq<Entry>, n: nat)
    requires IsPage(t, w, cursor, batch, a) && IsPage(t, w, cursor, batch, b)
    requires n < |a| && n < |b| && a[..n] == b[..n]
    ensures !Before(Pos(a[n]), Pos(b[n]))
  {
    assert a[n] in a;
    assert forall i :: 0 <= i < n ==> b[i] == a[..n][i];
  }

  ghost function PageKeys(page: seq<Entry>): set<Key> {
    set i | 0 <= i < |page| :: page[i].key
  }

  lemma PageKeysDistinct(t: Table, page: seq<Entry>)
    requires Sorted(page)
    requires forall e :: e in page ==> e.key in t && t[e.key] == e.row
    ensures |PageKeys(page)| == |page|
  {
    forall i, j | 0 <= i < j < |page| ensures page[i].key != page[j].key {
      assert page[i] in page && page[j] in page;
      assert Before(Pos(page[i]), Pos(page[j]));
    }
    DistinctKeys(page);
  }

  lemma {:induction false} DistinctKeys(page: seq<Entry>)
    requires forall i, j :: 0 <= i < j < |page| ==> page[i].key != page[j].key
    ensures |PageKeys(page)| == |page|
  {
    if page != [] {
      var n := |page| - 1;
      DistinctKeys(page[..n]);
      assert PageKeys(page) == PageKeys(page[..n]) + {page[n].key};
    }
  }

  /** A key of the page has its current row in the page. */
  lemma PageKeyEntry(t: Table, w: Window, cursor: Option<Position>, page: seq<Entry>, k: Key)
    requires Sound(t, w, cursor, page)
    ensures k in PageKeys(page) <==> k in t && Entry(k, t[k]) in page
    ensures k in PageKeys(page) ==> Matches(k, t[k], w, cursor)
  {
    if k in PageKeys(page) {
      var i :| 0 <= i < |page| && page[i].key == k;
      assert page[i] in page;
    }
  }

  lemma EntryWithinLast(page: seq<Entry>, e: Entry)
    requires Sorted(page) && e in page
    ensures Pos(e) == LastPosition(page) || Before(Pos(e), LastPosition(page))
  {
    var i :| 0 <= i < |page| && page[i] == e;
  }

  lemma LeftAfterPage(t: Table, w: Window, cursor: Option<Position>, batch: nat, page: seq<Entry>, k: Key)
    requires IsPage(t, w, cursor, batch, page) && page != [] && k in t
    ensures k in Left(t, w, Some(LastPosition(page))) <==> k in Left(t, w, cursor) && k !in PageKeys(page)
  {
    var last := LastPosition(page);
    PageKeyEntry(t, w, cursor, page, k);
    assert page[|page| - 1] in page;
    if k in PageKeys(page) {
      EntryWithinLast(page, Entry(k, t[k]));
    }
    if cursor.Some? {
      BeforeIsStrictOrder(cursor.value, last, PositionOf(k, t[k]));
    }
  }

  /** A full page moves the cursor strictly forward and removes exactly its rows from what is left. */
  lemma FullPageAdvances(t: Table, w: Window, cursor: Option<Position>, batch: nat, page: seq<Entry>)
    requires IsPage(t, w, cursor, batch, page) && page != []
    ensures Beyond(cursor, LastPosition(page))
    ensures Left(t, w, Some(LastPosition(page))) == Left(t, w, cursor) - PageKeys(page)
    ensures |Left(t, w, Some(LastPosition(page)))| == |Left(t, w, cursor)| - |page|
  {
    assert page[|page| - 1] in page;
    var before, after := Left(t, w, cursor), Left(t, w, Some(LastPosition(page)));
    forall k | k in t ensures k in after <==> k in before && k !in PageKeys(page) {
      LeftAfterPage(t, w, cursor, batch, page, k);
    }
    assert after == before - PageKeys(page);
    forall k | k in PageKeys(page) ensures k in before {
      PageKeyEntry(t, w, cursor, page, k);
    }
    PageKeysDistinct(t, page);
  }

  // ---- Chains over a table that is being rewritten -----------------------------------------------------

  /** `u` differs from `t` by deletes and by writes stamped after the window. */
  ghost predicate OnlyMovesOut(t: Table, u: Table, w: Window) {
    forall k :: k in u && u[k].stamp <= w.end ==> k in t && t[k] == u[k]
  }

  lemma MovesOutTwice(t: Table, u: Table, v: Table, w: Window)
    requires OnlyMovesOut(t, u, w) && OnlyMovesOut(u, v, w)
    ensures OnlyMovesOut(t, v, w)
  {}

  /** Such changes only take rows out of what is left of the window. */
  lemma LeftShrinks(t: Table, u: Table, w: Window, cursor: Option<Position>)
    requires OnlyMovesOut(t, u, w)
    ensures Left(u, w, cursor) <= Left(t, w, cursor)
    ensures |Left(u, w, cursor)| <= |Left(t, w, cursor)|
  {
    Subset(Left(u, w, cursor), Left(t, w, cursor));
  }

  /** The cursor before page `i`. */
  ghost function CursorAt(cursor: Option<Position>, pages: seq<seq<Entry>>, i: nat): Option<Position>
    requires i <= |pages| && forall j :: 0 <= j < i ==> pages[j] != []
  {
    if i == 0 then cursor else Some(LastPosition(pages[i - 1]))
  }

  /** Page `i` is full and read from the previous page's last row, on the table as it then was. */
  ghost predicate FullPageAt(tables: seq<Table>, w: Window, cursor: Option<Position>, batch: nat,
                             pages: seq<seq<Entry>>, i: nat)
    requires i < |pages| == |tables| && forall j :: 0 <= j < |pages| ==> pages[j] != []
  {
    IsPage(tables[i], w, CursorAt(cursor, pages, i), batch, pages[i]) && |pages[i]| == batch
  }

  /** Consecutive full pages of one chain, over a table that changes between them. */
  ghost predicate FullPages(tables: seq<Table>, w: Window, cursor: Option<Position>, batch: nat, pages: seq<seq<Entry>>) {
    && |pages| == |tables| && (forall j :: 0 <= j < |pages| ==> pages[j] != [])
    && (forall i :: 0 <= i < |pages| ==> FullPageAt(tables, w, cursor, batch, pages, i))
    && (forall i, j :: 0 <= i && j == i + 1 && j < |tables| ==> OnlyMovesOut(tables[i], tables[j], w))
  }

  /** After `n` pages, the rows left have shrunk by at least `n` batches. */
  lemma {:induction false} FullPagesLeave(tables: seq<Table>, w: Window, cursor: Option<Position>, batch: nat,
                                          pages: seq<seq<Entry>>, n: nat)
    requires FullPages(tables, w, cursor, batch, pages) && 0 < n <= |pages|
    ensures n * batch + |Left(tables[n - 1], w, CursorAt(cursor, pages, n))| <= |Left(tables[0], w, cursor)|
  {
    assert FullPageAt(tables, w, cursor, batch, pages, n - 1);
    FullPageAdvances(tables[n - 1], w, CursorAt(cursor, pages, n - 1), batch, pages[n - 1]);
    if n > 1 {
      FullPagesLeave(tables, w, cursor, batch, pages, n - 1);
      LeftShrinks(tables[n - 2], tables[n - 1], w, CursorAt(cursor, pages, n - 1));
      OneMore(n - 1, batch);
    }
  }

  /**
   * A chain ends: once nothing older can be committed, k full pages need k batches of rows left in the window
   * when the chain began, however the source is rewritten in between.
   */
  lemma ChainEnds(tables: seq<Table>, w: Window, cursor: Option<Position>, batch: nat, pages: seq<seq<Entry>>)
    requires FullPages(tables, w, cursor, batch, pages) && pages != []
    ensures |pages| * batch <= |Left(tables[0], w, cursor)|
  {
    FullPagesLeave(tables, w, cursor, batch, pages, |pages|);
  }

  /** Along the chain the cursor strictly increases. */
  lemma {:induction false} CursorsIncrease(tables: seq<Table>, w: Window, cursor: Option<Position>, batch: nat,
                                           pages: seq<seq<Entry>>, i: nat, j: nat)
    requires FullPages(tables, w, cursor, batch, pages) && i < j <= |pages|
    ensures Beyond(CursorAt(cursor, pages, i), CursorAt(cursor, pages, j).value)
    decreases j
  {
    assert FullPageAt(tables, w, cursor, batch, pages, j - 1);
    FullPageAdvances(tables[j - 1], w, CursorAt(cursor, pages, j - 1), batch, pages[j - 1]);
    if i < j - 1 {
      CursorsIncrease(tables, w, cursor, batch, pages, i, j - 1);
      var first, mid, last := CursorAt(cursor, pages, i), CursorAt(cursor, pages, j - 1), CursorAt(cursor, pages, j);
      if first.Some? {
        BeforeIsStrictOrder(first.value, mid.value, last.value);
      }
    }
  }

  // ---- Chains over an unchanging table -----------------------------------------------------------------

  /** A continuation chain over an unchanging table: full pages, each read from the previous page's last row. */
  ghost predicate IsChain(t: Table, w: Window, cursor: Option<Position>, batch: nat, pages: seq<seq<Entry>>)
    decreases |pages|
  {
    if pages == [] then false
    else
      && IsPage(t, w, cursor, batch, pages[0])
      && if |pages| == 1 then |pages[0]| < batch
         else |pages[0]| == batch && pages[0] != []
              && IsChain(t, w, Some(LastPosition(pages[0])), batch, pages[1..])
  }

  ghost function Flat(pages: seq<seq<Entry>>): seq<Entry> {
    if pages == [] then [] else pages[0] + Flat(pages[1..])
  }

  /** `all` lists the matching rows beyond the cursor, in order, each exactly once. */
  ghost predicate Enumerates(t: Table, w: Window, cursor: Option<Position>, all: seq<Entry>) {
    && Sorted(all)
    && Sound(t, w, cursor, all)
    && (forall k :: k in t && Matches(k, t[k], w, cursor) ==> Entry(k, t[k]) in all)
  }

  lemma EnumerationSize(t: Table, w: Window, cursor: Option<Position>, all: seq<Entry>)
    requires Enumerates(t, w, cursor, all)
    ensures |all| == |Left(t, w, cursor)|
  {
    PageKeysDistinct(t, all);
    forall k ensures k in PageKeys(all) <==> k in Left(t, w, cursor) {
      PageKeyEntry(t, w, cursor, all, k);
    }
    assert PageKeys(all) == Left(t, w, cursor);
  }

  lemma SortedConcat(a: seq<Entry>, b: seq<Entry>)
    requires Sorted(a) && Sorted(b) && a != []
    requires forall e :: e in b ==> Before(LastPosition(a), Pos(e))
    ensures Sorted(a + b)
  {
    var c := a + b;
    forall i, j | 0 <= i < j < |c| ensures Before(Pos(c[i]), Pos(c[j])) {
      if i < |a| <= j {
        assert c[j] in b && c[i] in a;
        EntryWithinLast(a, c[i]);
        BeforeIsStrictOrder(Pos(c[i]), LastPosition(a), Pos(c[j]));
      }
    }
  }

  /** A full page followed by an enumeration beyond its last row is an enumeration. */
  lemma PageThenRest(t: Table, w: Window, cursor: Option<Position>, batch: nat, page: seq<Entry>, rest: seq<Entry>)
    requires IsPage(t, w, cursor, batch, page) && page != []
    requires Enumerates(t, w, Some(LastPosition(page)), rest)
    ensures Enumerates(t, w, cursor, page + rest)
  {
    var last := LastPosition(page);
    SortedConcat(page, rest);
    assert page[|page| - 1] in page;
    forall e | e in page + rest ensures e.key in t && t[e.key] == e.row && Matches(e.key, e.row, w, cursor) {
      if e in rest && cursor.Some? {
        BeforeIsStrictOrder(cursor.value, last, Pos(e));
      }
    }
  }

  /** The chain serves the eligible rows of the window, in order, each exactly once. */
  lemma {:induction false} ChainServesEachRowOnce(t: Table, w: Window, cursor: Option<Position>, batch: nat,
                                                  pages: seq<seq<Entry>>)
    requires IsChain(t, w, cursor, batch, pages)
    ensures Enumerates(t, w, cursor, Flat(pages))
    decreases |pages|
  {
    if |pages| == 1 {
      assert Flat(pages[1..]) == [];
      assert Flat(pages) == pages[0];
    } else {
      ChainServesEachRowOnce(t, w, Some(LastPosition(pages[0])), batch, pages[1..]);
      PageThenRest(t, w, cursor, batch, pages[0], Flat(pages[1..]));
    }
  }

  /** The number of pages of a chain is decided by the rows left: full pages, then one short page. */
  lemma {:induction false} ChainLength(t: Table, w: Window, cursor: Option<Position>, batch: nat,
                                       pages: seq<seq<Entry>>)
    requires IsChain(t, w, cursor, batch, pages)
    ensures (|pages| - 1) * batch <= |Left(t, w, cursor)| < |pages| * batch
    decreases |pages|
  {
    if |pages| == 1 {
      EnumerationSize(t, w, cursor, pages[0]);
    } else {
      FullPageAdvances(t, w, cursor, batch, pages[0]);
      ChainLength(t, w, Some(LastPosition(pages[0])), batch, pages[1..]);
      OneMore(|pages| - 2, batch);
      OneMore(|pages| - 1, batch);
    }
  }
}
