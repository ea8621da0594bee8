/**
 * Scopes of API clients (crates/centaur-api-server/src/api_clients.rs, `granted_scopes`, and the scope claim of
 * crates/centaur-api-server/src/auth.rs): whitespace-separated lists, sorted and without duplicates when requested.
 */
module ApiScopes {
  import opened Common

  // ---- Whitespace-separated words ---------------------------------------------------------------------

  predicate IsSpace(c: char) { UnicodeSpace(c) }

  lemma IsSpaceExactly(c: char)
    ensures IsSpace(c) <==> c in WHITE_SPACE
  {
    UnicodeSpaceExactly(c);
  }

  predicate IsWord(s: string) { s != "" && forall i :: 0 <= i < |s| ==> !IsSpace(s[i]) }

  /** The length of the longest prefix without whitespace. */
  function WordLength(s: string): (n: nat)
    ensures n <= |s| && (n < |s| ==> IsSpace(s[n]))
    ensures forall i :: 0 <= i < n ==> !IsSpace(s[i])
  {
    if s == "" || IsSpace(s[0]) then 0 else 1 + WordLength(s[1..])
  }

  /** `split_whitespace` */
  function Words(s: string): (ws: seq<string>)
    ensures forall i :: 0 <= i < |ws| ==> IsWord(ws[i])
    decreases |s|
  {
    if s == "" then []
    else if IsSpace(s[0]) then Words(s[1..])
    else [s[..WordLength(s)]] + Words(s[WordLength(s)..])
  }

  /** `join(" ")` */
  function JoinWords(ws: seq<string>): string {
    if ws == [] then "" else if |ws| == 1 then ws[0] else ws[0] + " " + JoinWords(ws[1..])
  }

  ghost predicate AllWords(ws: seq<string>) { forall i :: 0 <= i < |ws| ==> IsWord(ws[i]) }

  lemma WordLengthIs(w: string, rest: string)
    requires IsWord(w) && (rest != "" ==> IsSpace(rest[0]))
    ensures WordLength(w + rest) == |w|
  {
    var s := w + rest;
    var n := WordLength(s);
    assert forall i :: 0 <= i < |w| ==> s[i] == w[i];
    if rest != "" {
      assert s[|w|] == rest[0];
    }
  }

  lemma {:induction false} WordsOfJoin(ws: seq<string>)
    requires AllWords(ws)
    ensures Words(JoinWords(ws)) == ws
    decreases |ws|
  {
    if ws != [] {
      var rest := if |ws| == 1 then "" else " " + JoinWords(ws[1..]);
      WordLengthIs(ws[0], rest);
      WordsOfJoin(ws[1..]);
      assert JoinWords(ws) == ws[0] + rest;
      assert (ws[0] + rest)[|ws[0]|..] == rest;
      assert (ws[0] + rest)[..|ws[0]|] == ws[0];
      if |ws| > 1 {
        assert rest[1..] == JoinWords(ws[1..]);
      }
      assert ws == [ws[0]] + ws[1..];
    }
  }

  /** White space separates, and only that: splitting on both sides of it splits the whole. */
  lemma {:induction false} WordsSplit(a: string, c: char, b: string)
    requires IsSpace(c)
    ensures Words(a + [c] + b) == Words(a) + Words(b)
    decreases |a|
  {
    var s := a + [c] + b;
    if a == "" {
      assert s == [c] + b && s[1..] == b;
    } else if IsSpace(a[0]) {
      WordsSplit(a[1..], c, b);
      assert s[1..] == a[1..] + [c] + b;
    } else {
      var n := WordLength(a);
      PrefixLength(a, [c] + b);
      AfterPrefix(a, c, b, n);
      WordsSplit(a[n..], c, b);
    }
  }

  lemma AfterPrefix(a: string, c: char, b: string, n: nat)
    requires n <= |a|
    ensures a + [c] + b == a + ([c] + b)
    ensures (a + [c] + b)[..n] == a[..n] && (a + [c] + b)[n..] == a[n..] + [c] + b
  {}

  /** The first word of a text is not lengthened by what follows a space. */
  lemma {:induction false} PrefixLength(a: string, rest: string)
    requires rest != "" && IsSpace(rest[0])
    ensures WordLength(a + rest) == WordLength(a)
    decreases |a|
  {
    if a == "" {
      assert a + rest == rest;
    } else {
      PrefixLength(a[1..], rest);
      assert (a + rest)[1..] == a[1..] + rest;
    }
  }

  /** A text without white space is one word. */
  lemma WordsOne(w: string)
    requires IsWord(w)
    ensures Words(w) == [w]
  {
    WordLengthIs(w, "");
    assert w + "" == w && w[..|w|] == w && w[|w|..] == "";
  }

  /** A scope claim reads back as the list it was made of exactly when every scope is one word. */
  lemma ClaimExactly(ws: seq<string>)
    ensures Words(JoinWords(ws)) == ws <==> AllWords(ws)
  {
    if AllWords(ws) {
      WordsOfJoin(ws);
    }
  }

  // ---- Sorting and removing duplicates ---------------------------------------------------------------------

  /** The order of Rust's `str`. */
  predicate Le(a: string, b: string) {
    a == "" || (b != "" && (a[0] < b[0] || (a[0] == b[0] && Le(a[1..], b[1..]))))
  }

  /** The texts first differ at `i`, where `a` has the smaller character. */
  predicate LessAt(a: string, b: string, i: int) {
    0 <= i < |a| && i < |b| && a[i] < b[i] && forall j :: 0 <= j < i ==> a[j] == b[j]
  }

  /** The first difference decides, and a prefix comes before what it begins. */
  lemma {:induction false} LeExactly(a: string, b: string)
    ensures Le(a, b) <==> a <= b || exists i :: LessAt(a, b, i)
    decreases |a|
  {
    if a != "" && b != "" {
      if a[0] == b[0] {
        LeExactly(a[1..], b[1..]);
        SameHead(a, b);
      } else if a[0] < b[0] {
        assert LessAt(a, b, 0);
      }
    }
  }

  lemma SameHead(a: string, b: string)
    requires a != "" && b != "" && a[0] == b[0]
    ensures a <= b <==> a[1..] <= b[1..]
    ensures (exists i :: LessAt(a, b, i)) <==> exists i :: LessAt(a[1..], b[1..], i)
  {
    var c, d := a[1..], b[1..];
    assert a == [a[0]] + c && b == [b[0]] + d;
    if i :| LessAt(c, d, i) {
      assert LessAt(a, b, i + 1);
    }
    if i :| LessAt(a, b, i) {
      assert LessAt(c, d, i - 1);
    }
  }

  lemma {:induction false} LeTotal(a: string, b: string)
    ensures Le(a, b) || Le(b, a)
    decreases |a|
  {
    if a != "" && b != "" {
      LeTotal(a[1..], b[1..]);
    }
  }

  lemma {:induction false} LeAntisymmetric(a: string, b: string)
    requires Le(a, b) && Le(b, a)
    ensures a == b
    decreases |a|
  {
    if a != "" && b != "" {
      LeAntisymmetric(a[1..], b[1..]);
      assert a == [a[0]] + a[1..] && b == [b[0]] + b[1..];
    }
  }

  lemma {:induction false} LeTransitive(a: string, b: string, c: string)
    requires Le(a, b) && Le(b, c)
    ensures Le(a, c)
    decreases |a|
  {
    if a != "" && a[0] == b[0] == c[0] {
      LeTransitive(a[1..], b[1..], c[1..]);
    }
  }

  ghost predicate Sorted(s: seq<string>) { forall i, j :: 0 <= i < j < |s| ==> Le(s[i], s[j]) }

  /** In strictly increasing order. */
  ghost predicate Ascending(s: seq<string>) { forall i, j :: 0 <= i < j < |s| ==> Le(s[i], s[j]) && s[i] != s[j] }

  /** A sorted list with `x` in its place. */
  method Insert(s: seq<string>, x: string) returns (r: seq<string>)
    requires Sorted(s)
    ensures Sorted(r) && multiset(r) == multiset(s) + multiset{x}
  {
    var n := |s|;
    while n > 0 && !Le(s[n - 1], x)
      invariant 0 <= n <= |s| && forall i :: n <= i < |s| ==> Le(x, s[i])
    {
      LeTotal(s[n - 1], x);
      n := n - 1;
    }
    r := s[..n] + [x] + s[n..];
    assert s == s[..n] + s[n..];
    InsertSorted(s, x, n);
  }

  lemma InsertSorted(s: seq<string>, x: string, n: nat)
    requires Sorted(s) && n <= |s| && (n > 0 ==> Le(s[n - 1], x)) && forall i :: n <= i < |s| ==> Le(x, s[i])
    ensures Sorted(s[..n] + [x] + s[n..])
  {
    var r := s[..n] + [x] + s[n..];
    forall i | 0 <= i < n ensures Le(s[i], x) {
      if i < n - 1 {
        LeTransitive(s[i], s[n - 1], x);
      }
    }
    forall i, j | 0 <= i < j < |r| ensures Le(r[i], r[j]) {
      assert r[i] == if i < n then s[i] else if i == n then x else s[i - 1];
      assert r[j] == if j < n then s[j] else if j == n then x else s[j - 1];
    }
  }

  /** `sort` */
  method Sort(s: seq<string>) returns (r: seq<string>)
    ensures Sorted(r) && multiset(r) == multiset(s)
  {
    r := [];
    for n := 0 to |s|
      invariant Sorted(r) && multiset(r) == multiset(s[..n])
    {
      r := Insert(r, s[n]);
      assert s[..n + 1] == s[..n] + [s[n]];
    }
    assert s[..|s|] == s;
  }

  /** `dedup`: drops each element equal to the one before it. */
  method Dedup(s: seq<string>) returns (r: seq<string>)
    requires Sorted(s)
    ensures Ascending(r) && SameElements(r, s)
  {
    r := [];
    for n := 0 to |s|
      invariant Ascending(r) && SameElements(r, s[..n])
      invariant n == 0 ==> r == []
      invariant n > 0 ==> r != [] && r[|r| - 1] == s[n - 1]
    {
      assert s[..n + 1] == s[..n] + [s[n]];
      if n == 0 || s[n] != s[n - 1] {
        forall i | 0 <= i < |r| ensures Le(r[i], s[n]) && r[i] != s[n] {
          if i < |r| - 1 {
            LeTransitive(r[i], s[n - 1], s[n]);
            if r[i] == s[n] {
              LeAntisymmetric(s[n - 1], s[n]);
            }
          }
        }
        r := r + [s[n]];
      }
    }
    assert s[..|s|] == s;
  }

  ghost predicate SameElements(a: seq<string>, b: seq<string>) { forall x :: x in a <==> x in b }

  /** An ascending list is determined by its elements. */
  lemma {:induction false} AscendingUnique(a: seq<string>, b: seq<string>)
    requires Ascending(a) && Ascending(b) && SameElements(a, b)
    ensures a == b
    decreases |a|
  {
    if a == [] {
      NoElements(b);
    } else {
      assert a[0] in b;
      assert b[0] in a;
      HeadLeast(a, b[0]);
      HeadLeast(b, a[0]);
      LeAntisymmetric(a[0], b[0]);
      forall x ensures x in a[1..] <==> x in b[1..] {
        TailElements(a, x);
        TailElements(b, x);
      }
      AscendingUnique(a[1..], b[1..]);
      assert a == [a[0]] + a[1..] && b == [b[0]] + b[1..];
    }
  }

  lemma NoElements(a: seq<string>)
    requires forall x :: x !in a
    ensures a == []
  {
    if a != [] {
      HeadIn(a);
    }
  }

  lemma HeadIn(a: seq<string>)
    requires a != []
    ensures exists x :: x in a
  {
    assert a[0] in a;
  }

  lemma HeadLeast(a: seq<string>, x: string)
    requires Ascending(a) && x in a
    ensures Le(a[0], x)
  {
    var i :| 0 <= i < |a| && a[i] == x;
    if i == 0 {
      LeTotal(x, x);
    }
  }

  lemma TailElements(a: seq<string>, x: string)
    requires Ascending(a) && a != []
    ensures x in a[1..] <==> x in a && x != a[0]
  {
    assert a == [a[0]] + a[1..];
    if x in a[1..] {
      var i :| 0 <= i < |a[1..]| && a[1..][i] == x;
      assert a[i + 1] == x;
    }
  }

  // ---- granted_scopes ---------------------------------------------------------------------------------------

  function Requested(scope: Option<string>): seq<string> { if scope.Some? then Words(scope.value) else [] }

  /** What a client with these scopes is granted; None is the `invalid_scope` error. */
  ghost predicate IsGrant(allowed: seq<string>, scope: Option<string>, granted: Option<seq<string>>) {
    var words := Requested(scope);
    if words == [] then granted == Some(allowed)
    else if exists w :: w in words && w !in allowed then granted == None
    else granted.Some? && Ascending(granted.value) && SameElements(granted.value, words)
  }

  /** `granted_scopes` */
  method GrantedScopes(allowed: seq<string>, scope: Option<string>) returns (granted: Option<seq<string>>)
    ensures IsGrant(allowed, scope, granted)
  {
    var words := Requested(scope);
    if words == [] {
      return Some(allowed);
    }
    for n := 0 to |words|
      invariant forall i :: 0 <= i < n ==> words[i] in allowed
    {
      if words[n] !in allowed {
        return None;
      }
    }
    var sorted := Sort(words);
    var scopes := Dedup(sorted);
    forall x ensures x in scopes <==> x in words {
      assert x in multiset(sorted) <==> x in multiset(words);
    }
    granted := Some(scopes);
  }

  /** The grant is one list, depends only on the set of words requested, and never exceeds the client's scopes. */
  lemma GrantUnique(allowed: seq<string>, a: Option<string>, b: Option<string>,
                    grantA: Option<seq<string>>, grantB: Option<seq<string>>)
    requires IsGrant(allowed, a, grantA) && IsGrant(allowed, b, grantB)
    requires SameElements(Requested(a), Requested(b))
    ensures grantA == grantB
    ensures grantA.Some? ==> forall x :: x in grantA.value ==> x in allowed
  {
    var wa, wb := Requested(a), Requested(b);
    assert wa != [] ==> wa[0] in wb;
    assert wb != [] ==> wb[0] in wa;
    if wa != [] && grantA.Some? {
      AscendingUnique(grantA.value, grantB.value);
    }
  }
}
