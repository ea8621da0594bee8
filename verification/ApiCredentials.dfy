/**
 * OAuth client authentication (crates/centaur-api-server/src/api_clients.rs, `client_credentials`): HTTP Basic
 * with form-encoded parts as section 2.3.1 of RFC 6749 asks, or the form's own fields, but not both.
 * Text is its UTF-8 bytes; base64 is a parameter.
 */
module ApiCredentials {
  import opened Common

  const PERCENT: Byte := 37
  const PLUS: Byte := 43
  const SPACE: Byte := 32
  const TAB: Byte := 9
  const COLON: Byte := 58

  datatype Error = InvalidRequest | InvalidClient

  datatype Result<+T> = Ok(value: T) | Err(error: Error)

  // ---- UTF-8 ------------------------------------------------------------------------------------------

  predicate Cont(b: Byte) { 128 <= b < 192 }

  /** The length of the well-formed character `s` starts with, per section 4 of RFC 3629; 0 if there is none. */
  function CharLength(s: Bytes): (n: nat)
    ensures n <= |s| && n <= 4
  {
    if s == [] then 0
    else if s[0] < 128 then 1
    else if 194 <= s[0] < 224 then if |s| > 1 && Cont(s[1]) then 2 else 0
    else if 224 <= s[0] < 240 then
      if |s| > 2 && Cont(s[1]) && Cont(s[2]) && (s[0] == 224 ==> s[1] >= 160) && (s[0] == 237 ==> s[1] < 160) then 3 else 0
    else if 240 <= s[0] < 245 then
      if |s| > 3 && Cont(s[1]) && Cont(s[2]) && Cont(s[3]) && (s[0] == 240 ==> s[1] >= 144) && (s[0] == 244 ==> s[1] < 144)
      then 4 else 0
    else 0
  }

  /** `String::from_utf8` succeeds. */
  predicate Utf8(s: Bytes) {
    s == [] || (CharLength(s) > 0 && Utf8(s[CharLength(s)..]))
  }

  // ---- UTF-8 as an encoding of Unicode scalar values -----------------------------------------------------

  predicate Scalar(c: int) { 0 <= c < 0xD800 || 0xE000 <= c < 0x11_0000 }

  /** Six more bits from a continuation byte. */
  function More(high: int, b: Byte): int { high * 64 + (b as int - 128) }

  /** `bs` is the encoding of the scalar value `c`, the shortest possible, per section 3 of RFC 3629. */
  predicate IsEncoding(c: int, bs: Bytes) {
    && Scalar(c)
    && (forall i :: 0 < i < |bs| ==> Cont(bs[i]))
    && if c < 0x80 then |bs| == 1 && bs[0] as int == c
       else if c < 0x800 then |bs| == 2 && c == More(bs[0] as int - 192, bs[1])
       else if c < 0x1_0000 then |bs| == 3 && c == More(More(bs[0] as int - 224, bs[1]), bs[2])
       else |bs| == 4 && c == More(More(More(bs[0] as int - 240, bs[1]), bs[2]), bs[3])
  }

  ghost predicate IsChar(bs: Bytes) { exists c :: IsEncoding(c, bs) }

  lemma EncodingLength(c: int, bs: Bytes, rest: Bytes)
    requires IsEncoding(c, bs)
    ensures CharLength(bs + rest) == |bs| > 0
  {}

  lemma CharIsEncoding(s: Bytes) returns (c: int)
    requires CharLength(s) > 0
    ensures IsEncoding(c, s[..CharLength(s)])
  {
    var n := CharLength(s);
    c := if n == 1 then s[0] as int
         else if n == 2 then More(s[0] as int - 192, s[1])
         else if n == 3 then More(More(s[0] as int - 224, s[1]), s[2])
         else More(More(More(s[0] as int - 240, s[1]), s[2]), s[3]);
  }

  function JoinBytes(parts: seq<Bytes>): Bytes {
    if parts == [] then [] else parts[0] + JoinBytes(parts[1..])
  }

  /** Encoded scalar values, one after another, pass the check. */
  lemma {:induction false} CharsAreUtf8(chars: seq<Bytes>)
    requires forall i :: 0 <= i < |chars| ==> IsChar(chars[i])
    ensures Utf8(JoinBytes(chars))
    decreases |chars|
  {
    if chars != [] {
      var first, rest := chars[0], JoinBytes(chars[1..]);
      CharsAreUtf8(chars[1..]);
      var c :| IsEncoding(c, first);
      EncodingLength(c, first, rest);
      assert (first + rest)[|first|..] == rest;
    }
  }

  /** And nothing else does. */
  lemma {:induction false} Utf8IsChars(s: Bytes) returns (chars: seq<Bytes>)
    requires Utf8(s)
    ensures (forall i :: 0 <= i < |chars| ==> IsChar(chars[i])) && JoinBytes(chars) == s
    decreases |s|
  {
    chars := [];
    if s != [] {
      var n := CharLength(s);
      var c := CharIsEncoding(s);
      assert IsChar(s[..n]);
      chars := Utf8IsChars(s[n..]);
      OneMoreChar(s[..n], chars);
      assert s == s[..n] + s[n..];
      chars := [s[..n]] + chars;
    }
  }

  lemma OneMoreChar(first: Bytes, rest: seq<Bytes>)
    requires IsChar(first) && forall i :: 0 <= i < |rest| ==> IsChar(rest[i])
    ensures forall i :: 0 <= i < |rest| + 1 ==> IsChar(([first] + rest)[i])
    ensures JoinBytes([first] + rest) == first + JoinBytes(rest)
  {
    assert ([first] + rest)[1..] == rest;
  }

  lemma {:induction false} AsciiIsUtf8(s: Bytes)
    requires forall i :: 0 <= i < |s| ==> s[i] < 128
    ensures Utf8(s)
    decreases |s|
  {
    if s != [] {
      AsciiIsUtf8(s[1..]);
    }
  }

  lemma {:induction false} Utf8Concat(a: Bytes, b: Bytes)
    requires Utf8(a) && Utf8(b)
    ensures Utf8(a + b)
    decreases |a|
  {
    if a == [] {
      assert a + b == b;
    } else {
      var n := CharLength(a);
      Utf8Concat(a[n..], b);
      assert CharLength(a + b) == n;
      assert (a + b)[n..] == a[n..] + b;
    }
  }

  // ---- Form encoding -------------------------------------------------------------------------------------

  /** The value of a hexadecimal digit in either case; 16 for any other byte. */
  function HexValue(b: Byte): (v: int)
    ensures 0 <= v <= 16
  {
    if 48 <= b < 58 then b as int - 48
    else if 65 <= b < 71 then b as int - 55
    else if 97 <= b < 103 then b as int - 87
    else 16
  }

  predicate EscapeAt(s: Bytes, i: int) {
    0 <= i < |s| - 2 && s[i] == PERCENT && HexValue(s[i + 1]) < 16 && HexValue(s[i + 2]) < 16
  }

  const LOWER_DIGITS: Bytes := [48, 49, 50, 51, 52, 53, 54, 55, 56, 57, 97, 98, 99, 100, 101, 102]
  const UPPER_DIGITS: Bytes := [48, 49, 50, 51, 52, 53, 54, 55, 56, 57, 65, 66, 67, 68, 69, 70]

  /** The hexadecimal digits, in both cases, and no other byte. */
  lemma HexExactly(b: Byte, v: nat)
    requires v < 16
    ensures HexValue(b) == v <==> b == LOWER_DIGITS[v] || b == UPPER_DIGITS[v]
  {}

  /** `urlencoding::decode` before its UTF-8 check: a malformed escape is left as it is. */
  function PercentDecode(s: Bytes): Bytes {
    if s == [] then []
    else if EscapeAt(s, 0) then [(HexValue(s[1]) * 16 + HexValue(s[2])) as Byte] + PercentDecode(s[3..])
    else [s[0]] + PercentDecode(s[1..])
  }

  function PlusToSpace(s: Bytes): (r: Bytes)
    ensures |r| == |s|
  {
    seq(|s|, i requires 0 <= i < |s| => if s[i] == PLUS then SPACE else s[i])
  }

  function FormDecode(s: Bytes): Result<Bytes> {
    var decoded := PercentDecode(PlusToSpace(s));
    if Utf8(decoded) then Ok(decoded) else Err(InvalidClient)
  }

  /** One byte as an encoder may write it: itself, a plus sign for a space, or an escape in either case. */
  datatype Piece = Literal(b: Byte) | Plus | Escape(hi: Byte, lo: Byte)

  predicate Legal(p: Piece) {
    match p
    case Literal(b) => b < 128 && b != PERCENT && b != PLUS && b != COLON
    case Plus => true
    case Escape(hi, lo) => HexValue(hi) < 16 && HexValue(lo) < 16
  }

  function Written(p: Piece): Bytes {
    match p
    case Literal(b) => [b]
    case Plus => [PLUS]
    case Escape(hi, lo) => [PERCENT, hi, lo]
  }

  function Meant(p: Piece): Byte
    requires Legal(p)
  {
    match p
    case Literal(b) => b
    case Plus => SPACE
    case Escape(hi, lo) => (HexValue(hi) * 16 + HexValue(lo)) as Byte
  }

  ghost predicate AllLegal(pieces: seq<Piece>) { forall i :: 0 <= i < |pieces| ==> Legal(pieces[i]) }

  function Encoded(pieces: seq<Piece>): Bytes {
    if pieces == [] then [] else Written(pieces[0]) + Encoded(pieces[1..])
  }

  /** `pieces` is some form encoding of `raw`. */
  ghost predicate Encodes(pieces: seq<Piece>, raw: Bytes) {
    AllLegal(pieces) && |pieces| == |raw| && forall i :: 0 <= i < |raw| ==> Meant(pieces[i]) == raw[i]
  }

  lemma PlusToSpaceConcat(a: Bytes, b: Bytes)
    ensures PlusToSpace(a + b) == PlusToSpace(a) + PlusToSpace(b)
  {}

  lemma DecodePiece(p: Piece, rest: Bytes)
    requires Legal(p)
    ensures PercentDecode(PlusToSpace(Written(p)) + rest) == [Meant(p)] + PercentDecode(rest)
  {
    var w := PlusToSpace(Written(p));
    match p
    case Literal(b) =>
      assert w == [b];
      assert ([b] + rest)[1..] == rest;
    case Plus =>
      assert w == [SPACE];
      assert ([SPACE] + rest)[1..] == rest;
    case Escape(hi, lo) =>
      assert w == [PERCENT, hi, lo];
      assert ([PERCENT, hi, lo] + rest)[3..] == rest;
  }

  /** Every form encoding of a text decodes to it. */
  lemma {:induction false} DecodeEncoded(pieces: seq<Piece>, raw: Bytes)
    requires Encodes(pieces, raw)
    ensures PercentDecode(PlusToSpace(Encoded(pieces))) == raw
    decreases |pieces|
  {
    if pieces != [] {
      var rest := Encoded(pieces[1..]);
      DecodeEncoded(pieces[1..], raw[1..]);
      PlusToSpaceConcat(Written(pieces[0]), rest);
      DecodePiece(pieces[0], PlusToSpace(rest));
      assert raw == [raw[0]] + raw[1..];
    }
  }

  lemma {:induction false} EncodedShape(pieces: seq<Piece>)
    requires AllLegal(pieces)
    ensures COLON !in Encoded(pieces)
    ensures forall i :: 0 <= i < |Encoded(pieces)| ==> Encoded(pieces)[i] < 128
    ensures pieces != [] ==> Encoded(pieces) != []
    decreases |pieces|
  {
    if pieces != [] {
      EncodedShape(pieces[1..]);
    }
  }

  // ---- The header ----------------------------------------------------------------------------------------

  /** Standard base64, as far as the parser relies on it. */
  datatype Base64 = Base64(encode: Bytes -> Bytes, decode: Bytes -> Option<Bytes>)

  predicate Visible(b: Byte) { b == TAB || 32 <= b < 127 }

  predicate Blank(b: Byte) { b == SPACE || b == TAB }

  ghost predicate Faithful(codec: Base64) {
    forall x :: codec.decode(codec.encode(x)) == Some(x)
                && forall b :: b in codec.encode(x) ==> Visible(b) && !Blank(b)
  }

  /** `split_once` */
  function SplitOnce(s: Bytes, at: Byte): (r: Option<(Bytes, Bytes)>)
    ensures r.None? <==> at !in s
    ensures r.Some? ==> at !in r.value.0 && s == r.value.0 + [at] + r.value.1
  {
    if s == [] then None
    else if s[0] == at then
      assert s == [] + [at] + s[1..];
      Some(([], s[1..]))
    else
      var rest := SplitOnce(s[1..], at);
      assert s == [s[0]] + s[1..];
      if rest.None? then None
      else
        assert s == [s[0]] + rest.value.0 + [at] + rest.value.1;
        Some(([s[0]] + rest.value.0, rest.value.1))
  }

  lemma {:induction false} SplitFound(a: Bytes, at: Byte, b: Bytes)
    requires at !in a
    ensures SplitOnce(a + [at] + b, at) == Some((a, b))
    decreases |a|
  {
    var s := a + [at] + b;
    if a == [] {
      assert s == [at] + b;
      assert s[1..] == b;
    } else {
      SplitFound(a[1..], at, b);
      assert s[1..] == a[1..] + [at] + b;
      assert a == [a[0]] + a[1..];
    }
  }

  /** `trim` on visible text. */
  function Trim(s: Bytes): Bytes {
    if s == [] then []
    else if Blank(s[0]) then Trim(s[1..])
    else if Blank(s[|s| - 1]) then Trim(s[..|s| - 1])
    else s
  }

  lemma {:induction false} TrimPads(left: Bytes, s: Bytes, right: Bytes)
    requires forall b :: b in left + right ==> Blank(b)
    requires forall b :: b in s ==> !Blank(b)
    ensures Trim(left + s + right) == s
    decreases |left| + |right|
  {
    var padded := left + s + right;
    if left != [] {
      TrimPads(left[1..], s, right);
      assert padded[1..] == left[1..] + s + right;
      assert padded[0] == left[0] && left[0] in left + right;
    } else if right != [] {
      var n := |right| - 1;
      assert right[n] in left + right;
      TrimPads(left, s, right[..n]);
      if s == [] {
        AllBlank(padded);
      } else {
        assert padded[0] == s[0];
        assert padded[..|padded| - 1] == left + s + right[..n];
      }
    } else {
      assert padded == s;
      if s != [] {
        assert s[0] in s && s[|s| - 1] in s;
      }
    }
  }

  lemma {:induction false} AllBlank(s: Bytes)
    requires forall i :: 0 <= i < |s| ==> Blank(s[i])
    ensures Trim(s) == []
    decreases |s|
  {
    if s != [] {
      AllBlank(s[1..]);
    }
  }

  function Lower(b: Byte): Byte { if 65 <= b < 91 then b + 32 else b }

  function LowerAll(s: Bytes): Bytes { seq(|s|, i requires 0 <= i < |s| => Lower(s[i])) }

  const BASIC: Bytes := [98, 97, 115, 105, 99]

  /** The encoded credentials of a Basic header; anything else in the header counts as no Basic header. */
  function BasicPart(header: Option<Bytes>): Option<Bytes> {
    if header.None? || exists b :: b in header.value && !Visible(b) then None
    else
      var parts := SplitOnce(header.value, SPACE);
      if parts.None? || LowerAll(parts.value.0) != BASIC then None else Some(Trim(parts.value.1))
  }

  function ParseBasic(codec: Base64, encoded: Bytes): Result<(Bytes, Bytes)> {
    var decoded := codec.decode(encoded);
    if decoded.None? || !Utf8(decoded.value) then Err(InvalidClient)
    else
      var parts := SplitOnce(decoded.value, COLON);
      if parts.None? then Err(InvalidClient)
      else
        var id, secret := FormDecode(parts.value.0), FormDecode(parts.value.1);
        if id.Err? then Err(id.error) else if secret.Err? then Err(secret.error) else Ok((id.value, secret.value))
  }

  /** `client_credentials` */
  function ClientCredentials(codec: Base64, header: Option<Bytes>, formId: Option<Bytes>, formSecret: Option<Bytes>)
    : (r: Result<(Bytes, Bytes)>)
    ensures r == Err(InvalidRequest) <==> BasicPart(header).Some? && (formId.Some? || formSecret.Some?)
    ensures r.Ok? ==> r.value.0 != [] && r.value.1 != []
    ensures BasicPart(header).None? ==> (r.Ok? <==> formId.Some? && formSecret.Some? && formId.value != [] && formSecret.value != [])
    ensures BasicPart(header).None? && r.Ok? ==> r.value == (formId.value, formSecret.value)
  {
    var basic := BasicPart(header);
    var form := formId.Some? || formSecret.Some?;
    if basic.Some? && form then Err(InvalidRequest)
    else
      var pair :=
        if basic.Some? then ParseBasic(codec, basic.value)
        else Ok((if formId.Some? then formId.value else [], if formSecret.Some? then formSecret.value else []));
      if pair.Err? then pair
      else if pair.value.0 == [] || pair.value.1 == [] then Err(InvalidClient)
      else pair
  }

  /** The scheme is `Basic` in any case. */
  lemma SchemeExactly(scheme: Bytes)
    ensures LowerAll(scheme) == BASIC <==>
      && |scheme| == 5 && (scheme[0] == 66 || scheme[0] == 98) && (scheme[1] == 65 || scheme[1] == 97)
      && (scheme[2] == 83 || scheme[2] == 115) && (scheme[3] == 73 || scheme[3] == 105)
      && (scheme[4] == 67 || scheme[4] == 99)
  {
    if |scheme| == 5 {
      assert LowerAll(scheme) == [Lower(scheme[0]), Lower(scheme[1]), Lower(scheme[2]), Lower(scheme[3]), Lower(scheme[4])];
    }
  }

  /** A header of another scheme, without a space or with an invisible byte counts as no Basic header. */
  lemma OtherScheme(scheme: Bytes, rest: Bytes)
    requires SPACE !in scheme
    ensures BasicPart(Some(scheme)).None?
    ensures BasicPart(Some(scheme + [SPACE] + rest)).Some? <==>
      LowerAll(scheme) == BASIC && forall b :: b in rest ==> b == 9 || 32 <= b <= 126
  {
    SplitFound(scheme, SPACE, rest);
    var header := scheme + [SPACE] + rest;
    if LowerAll(scheme) == BASIC {
      SchemeShape(scheme);
      assert forall b :: b in header <==> b in scheme || b == SPACE || b in rest;
    }
  }

  // ---- Round trips -----------------------------------------------------------------------------------------

  /** A Basic header in any case and padding. */
  function Header(scheme: Bytes, left: Bytes, encoded: Bytes, right: Bytes): Bytes {
    scheme + [SPACE] + (left + encoded + right)
  }

  ghost predicate HeaderLike(scheme: Bytes, left: Bytes, right: Bytes) {
    LowerAll(scheme) == BASIC && forall b :: b in left + right ==> b == 32 || b == 9
  }

  lemma SchemeShape(scheme: Bytes)
    requires LowerAll(scheme) == BASIC
    ensures SPACE !in scheme && forall b :: b in scheme ==> Visible(b)
  {
    forall b | b in scheme ensures b != SPACE && Visible(b) {
      var i :| 0 <= i < |scheme| && scheme[i] == b;
      assert LowerAll(scheme)[i] == Lower(b);
      assert 97 <= BASIC[i] < 123;
    }
  }

  lemma HeaderParses(codec: Base64, scheme: Bytes, left: Bytes, plain: Bytes, right: Bytes)
    requires Faithful(codec) && HeaderLike(scheme, left, right)
    ensures BasicPart(Some(Header(scheme, left, codec.encode(plain), right))) == Some(codec.encode(plain))
  {
    var encoded := codec.encode(plain);
    SchemeShape(scheme);
    SplitFound(scheme, SPACE, left + encoded + right);
    TrimPads(left, encoded, right);
    var header := Header(scheme, left, encoded, right);
    forall b | b in header ensures Visible(b) {
      if b !in scheme && b != SPACE && b !in encoded {
        assert b in left + right;
      }
    }
  }

  /** When a Basic header is read as a given pair. */
  lemma HeaderReads(codec: Base64, scheme: Bytes, left: Bytes, plain: Bytes, right: Bytes, id: Bytes, secret: Bytes)
    requires Faithful(codec) && HeaderLike(scheme, left, right) && id != [] && secret != [] && Utf8(plain)
    ensures ClientCredentials(codec, Some(Header(scheme, left, codec.encode(plain), right)), None, None) == Ok((id, secret))
            <==> Halves(plain, id, secret)
  {
    HeaderParses(codec, scheme, left, plain, right);
    BasicOnly(codec, Some(Header(scheme, left, codec.encode(plain), right)), codec.encode(plain), (id, secret));
    ParsesHalves(codec, plain, id, secret);
  }

  lemma BasicOnly(codec: Base64, header: Option<Bytes>, encoded: Bytes, pair: (Bytes, Bytes))
    requires BasicPart(header) == Some(encoded) && pair.0 != [] && pair.1 != []
    ensures ClientCredentials(codec, header, None, None) == Ok(pair) <==> ParseBasic(codec, encoded) == Ok(pair)
  {}

  lemma ParsesHalves(codec: Base64, plain: Bytes, id: Bytes, secret: Bytes)
    requires codec.decode(codec.encode(plain)) == Some(plain) && Utf8(plain)
    ensures ParseBasic(codec, codec.encode(plain)) == Ok((id, secret)) <==> Halves(plain, id, secret)
  {}

  /** The text before the first colon decodes to `id`, the text after it to `secret`. */
  predicate Halves(plain: Bytes, id: Bytes, secret: Bytes) {
    var parts := SplitOnce(plain, COLON);
    parts.Some? && FormDecode(parts.value.0) == Ok(id) && FormDecode(parts.value.1) == Ok(secret)
  }

  /**
   * Whatever the identifier and secret contain, form-encoding both in any legal way, joining them with a colon
   * and sending them as HTTP Basic gives them back.
   */
  lemma RoundTrip(codec: Base64, scheme: Bytes, left: Bytes, right: Bytes,
                  id: Bytes, secret: Bytes, idPieces: seq<Piece>, secretPieces: seq<Piece>)
    requires Faithful(codec) && HeaderLike(scheme, left, right)
    requires id != [] && secret != [] && Utf8(id) && Utf8(secret)
    requires Encodes(idPieces, id) && Encodes(secretPieces, secret)
    ensures
      var plain := Encoded(idPieces) + [COLON] + Encoded(secretPieces);
      ClientCredentials(codec, Some(Header(scheme, left, codec.encode(plain), right)), None, None) == Ok((id, secret))
  {
    var plain := Encoded(idPieces) + [COLON] + Encoded(secretPieces);
    EncodedShape(idPieces);
    EncodedShape(secretPieces);
    AsciiIsUtf8(plain);
    HeaderReads(codec, scheme, left, plain, right, id, secret);
    SplitFound(Encoded(idPieces), COLON, Encoded(secretPieces));
    DecodeEncoded(idPieces, id);
    DecodeEncoded(secretPieces, secret);
  }

  /** `application/x-www-form-urlencoded` as browsers and libraries write it. */
  predicate Unreserved(b: Byte) {
    48 <= b < 58 || 65 <= b < 91 || 97 <= b < 123 || b == 42 || b == 45 || b == 46 || b == 95
  }

  function HexDigit(v: int): (b: Byte)
    requires 0 <= v < 16
    ensures HexValue(b) == v
  {
    if v < 10 then (v + 48) as Byte else (v + 55) as Byte
  }

  function StandardPiece(b: Byte): (p: Piece)
    ensures Legal(p) && Meant(p) == b
  {
    if Unreserved(b) then Literal(b) else if b == SPACE then Plus
    else Escape(HexDigit(b as int / 16), HexDigit(b as int % 16))
  }

  /** Every text has a form encoding, the standard one among others. */
  lemma StandardEncodes(raw: Bytes)
    ensures Encodes(seq(|raw|, i requires 0 <= i < |raw| => StandardPiece(raw[i])), raw)
  {}

  // ---- Clients that do not encode ---------------------------------------------------------------------------

  /** Nothing in the text looks encoded. */
  ghost predicate Plain(s: Bytes) { PLUS !in s && forall i :: !EscapeAt(s, i) }

  lemma {:induction false} DecodeShorter(s: Bytes)
    ensures |PercentDecode(s)| <= |s|
    ensures |PercentDecode(s)| == |s| ==> PercentDecode(s) == s && forall i :: !EscapeAt(s, i)
    decreases |s|
  {
    if s == [] {
    } else if EscapeAt(s, 0) {
      DecodeShorter(s[3..]);
    } else {
      DecodeShorter(s[1..]);
      assert s == [s[0]] + s[1..];
      forall i | 0 < i ensures EscapeAt(s, i) == EscapeAt(s[1..], i - 1) {
      }
    }
  }

  lemma {:induction false} DecodePlain(s: Bytes)
    requires forall i :: !EscapeAt(s, i)
    ensures PercentDecode(s) == s
    decreases |s|
  {
    if s != [] {
      forall i ensures !EscapeAt(s[1..], i) {
        assert EscapeAt(s[1..], i) ==> EscapeAt(s, i + 1);
      }
      DecodePlain(s[1..]);
      assert s == [s[0]] + s[1..];
    }
  }

  /** Form-decoding leaves a text alone exactly when nothing in it looks encoded. */
  lemma PlainExactly(s: Bytes)
    ensures PercentDecode(PlusToSpace(s)) == s <==> Plain(s)
    ensures |PercentDecode(PlusToSpace(s))| <= |s|
  {
    var t := PlusToSpace(s);
    DecodeShorter(t);
    if PercentDecode(t) == s {
      assert forall i :: 0 <= i < |s| ==> s[i] == t[i];
      assert t == s;
    }
    if Plain(s) {
      assert t == s;
      DecodePlain(s);
    }
  }

  /**
   * A client that joins and base64-encodes its credentials without form-encoding them is understood exactly
   * when its identifier has no colon and neither part has a plus sign or a percent escape.
   */
  lemma RawExactly(codec: Base64, scheme: Bytes, left: Bytes, right: Bytes, id: Bytes, secret: Bytes)
    requires Faithful(codec) && HeaderLike(scheme, left, right)
    requires id != [] && secret != [] && Utf8(id) && Utf8(secret)
    ensures
      var header := Header(scheme, left, codec.encode(id + [COLON] + secret), right);
      ClientCredentials(codec, Some(header), None, None) == Ok((id, secret))
      <==> COLON !in id && Plain(id) && Plain(secret)
  {
    var plain := id + [COLON] + secret;
    AsciiIsUtf8([COLON]);
    Utf8Concat(id, [COLON]);
    Utf8Concat(id + [COLON], secret);
    HeaderReads(codec, scheme, left, plain, right, id, secret);
    RawHalves(id, secret);
  }

  lemma RawHalves(id: Bytes, secret: Bytes)
    requires Utf8(id) && Utf8(secret)
    ensures Halves(id + [COLON] + secret, id, secret) <==> COLON !in id && Plain(id) && Plain(secret)
  {
    if COLON in id {
      FirstColon(id, secret);
      PlainExactly(SplitOnce(id + [COLON] + secret, COLON).value.0);
    } else {
      SplitFound(id, COLON, secret);
      PlainExactly(id);
      PlainExactly(secret);
    }
  }

  lemma FirstColon(id: Bytes, secret: Bytes)
    requires COLON in id
    ensures |SplitOnce(id + [COLON] + secret, COLON).value.0| < |id|
  {
    var parts := SplitOnce(id + [COLON] + secret, COLON).value;
    var i :| 0 <= i < |id| && id[i] == COLON;
    assert (id + [COLON] + secret)[i] == COLON;
    assert forall j :: 0 <= j < |parts.0| ==> (id + [COLON] + secret)[j] == parts.0[j];
  }
}
