/** Node's `querystring.stringify` as the path builder uses it: every key and
    value is percent-encoded by `querystring.escape` (the characters
    `A-Z a-z 0-9 - _ . ! ~ * ' ( )` stay as they are; every other character
    becomes the `%XX` escapes of its UTF-8 bytes, hex digits upper-case), each
    pair is written `key=value` and the pairs are joined with `&`.

    `Unescape` and `Parse` are reference decoders, not operations of the
    client: they exist so that the encoder can be shown to lose nothing. */
module QueryString {
  import opened Wrappers
  import Text

  type Byte = b: int | 0 <= b < 256

  /** The characters `querystring.escape` leaves untouched. */
  predicate Unreserved(c: char) {
    || ('A' <= c <= 'Z') || ('a' <= c <= 'z') || ('0' <= c <= '9')
    || c == '-' || c == '_' || c == '.' || c == '!' || c == '~'
    || c == '*' || c == '\'' || c == '(' || c == ')'
  }

  /** The UTF-8 encoding of one Unicode scalar value. */
  function Utf8Encode(c: char): (bs: seq<Byte>)
    ensures 1 <= |bs| <= 4
    ensures (c as int < 0x80) <==> |bs| == 1
  {
    var cp := c as int;
    if cp < 0x80 then [cp]
    else if cp < 0x800 then [0xC0 + cp / 64, 0x80 + cp % 64]
    else if cp < 0x1_0000 then [0xE0 + cp / 64 / 64, 0x80 + cp / 64 % 64, 0x80 + cp % 64]
    else [0xF0 + cp / 64 / 64 / 64, 0x80 + cp / 64 / 64 % 64, 0x80 + cp / 64 % 64, 0x80 + cp % 64]
  }

  /** An upper-case hexadecimal digit. */
  function HexDigit(n: int): (c: char)
    requires 0 <= n < 16
    ensures Unreserved(c)
  {
    if n < 10 then ('0' as int + n) as char else ('A' as int + n - 10) as char
  }

  /** The value of a hexadecimal digit of either case. */
  function HexValue(c: char): (r: Option<int>)
    ensures r.Some? ==> 0 <= r.value < 16
  {
    if '0' <= c <= '9' then Some(c as int - '0' as int)
    else if 'A' <= c <= 'F' then Some(c as int - 'A' as int + 10)
    else if 'a' <= c <= 'f' then Some(c as int - 'a' as int + 10)
    else None
  }

  lemma HexRoundTrip(n: int)
    requires 0 <= n < 16
    ensures HexValue(HexDigit(n)) == Some(n)
  {
  }

  /** `%XX` for one byte. */
  function EscapeByte(b: Byte): string {
    ['%', HexDigit(b / 16), HexDigit(b % 16)]
  }

  function EscapeBytes(bs: seq<Byte>): (r: string)
    ensures |r| == 3 * |bs|
    ensures forall i :: 0 <= i < |r| ==> Unreserved(r[i]) || r[i] == '%'
  {
    if |bs| == 0 then [] else EscapeByte(bs[0]) + EscapeBytes(bs[1..])
  }

  /** `querystring.escape` of a single character. */
  function EscapeChar(c: char): (r: string)
    ensures forall i :: 0 <= i < |r| ==> Unreserved(r[i]) || r[i] == '%'
    ensures Unreserved(c) ==> r == [c]
    ensures !Unreserved(c) ==> |r| >= 3 && r[0] == '%'
  {
    if Unreserved(c) then [c] else EscapeBytes(Utf8Encode(c))
  }

  /** `querystring.escape`: the result uses only unreserved characters and `%`. */
  function Escape(s: string): (r: string)
    ensures forall i :: 0 <= i < |r| ==> Unreserved(r[i]) || r[i] == '%'
  {
    if |s| == 0 then "" else EscapeChar(s[0]) + Escape(s[1..])
  }

  /** Escaping never shortens a string, and leaves it unchanged exactly when
      every character is unreserved. */
  lemma {:induction false} EscapeLength(s: string)
    ensures |Escape(s)| >= |s|
    ensures |Escape(s)| == |s| <==> forall i :: 0 <= i < |s| ==> Unreserved(s[i])
    ensures Escape(s) == s <==> forall i :: 0 <= i < |s| ==> Unreserved(s[i])
    decreases |s|
  {
    if |s| > 0 {
      EscapeLength(s[1..]);
      assert forall i :: 1 <= i < |s| ==> s[i] == s[1..][i - 1];
    }
  }

  /** One `key=value` pair as `querystring.stringify` writes it. */
  function EncodePair(kv: (string, string)): string {
    Escape(kv.0) + "=" + Escape(kv.1)
  }

  function EncodePairs(pairs: seq<(string, string)>): (r: seq<string>)
    ensures |r| == |pairs|
    ensures forall i :: 0 <= i < |r| ==> r[i] == EncodePair(pairs[i])
  {
    if |pairs| == 0 then [] else [EncodePair(pairs[0])] + EncodePairs(pairs[1..])
  }

  /** `querystring.stringify` of an object whose keys, in insertion order,
      are the first components of `pairs`. */
  function Stringify(pairs: seq<(string, string)>): string {
    Text.Join(EncodePairs(pairs), '&')
  }

  // ---------------------------------------------------------------------
  // Reference decoder
  // ---------------------------------------------------------------------

  /** The byte written as `%XX` at index `i` of `s`, if one is there. */
  function ReadByte(s: string, i: nat): Option<Byte> {
    if i + 3 <= |s| && s[i] == '%' then
      match (HexValue(s[i + 1]), HexValue(s[i + 2]))
      case (Some(h), Some(l)) => Some(16 * h + l)
      case _ => None
    else None
  }

  /** The payload of a UTF-8 continuation byte escaped at index `i`. */
  function ContinuationAt(s: string, i: nat): (r: Option<int>)
    ensures r.Some? ==> 0 <= r.value < 64
  {
    match ReadByte(s, i)
    case Some(b) => if 0x80 <= b < 0xC0 then Some(b - 0x80) else None
    case None => None
  }

  /** A code point as a character, when it is a Unicode scalar value. */
  function ScalarOf(cp: int, width: nat): Option<(char, nat)> {
    if 0 <= cp < 0xD800 || 0xE000 <= cp < 0x11_0000 then Some((cp as char, width)) else None
  }

  /** Decodes the escaped UTF-8 sequence at the start of `s`: the character
      and the number of input characters it occupied. */
  function DecodeChar(s: string): Option<(char, nat)> {
    match ReadByte(s, 0)
    case None => None
    case Some(b0) =>
      if b0 < 0x80 then ScalarOf(b0, 3)
      else if 0xC0 <= b0 < 0xE0 then
        match ContinuationAt(s, 3)
        case Some(x1) => ScalarOf((b0 - 0xC0) * 64 + x1, 6)
        case None => None
      else if 0xE0 <= b0 < 0xF0 then
        match (ContinuationAt(s, 3), ContinuationAt(s, 6))
        case (Some(x1), Some(x2)) => ScalarOf(((b0 - 0xE0) * 64 + x1) * 64 + x2, 9)
        case _ => None
      else if 0xF0 <= b0 < 0xF8 then
        match (ContinuationAt(s, 3), ContinuationAt(s, 6), ContinuationAt(s, 9))
        case (Some(x1), Some(x2), Some(x3)) => ScalarOf((((b0 - 0xF0) * 64 + x1) * 64 + x2) * 64 + x3, 12)
        case _ => None
      else None
  }

  /** Inverse of `Escape`: undoes `%XX` escapes, leaves other characters alone. */
  function Unescape(s: string): Option<string>
    decreases |s|
  {
    if |s| == 0 then Some("")
    else if s[0] != '%' then
      match Unescape(s[1..])
      case Some(t) => Some([s[0]] + t)
      case None => None
    else
      match DecodeChar(s)
      case None => None
      case Some((c, n)) =>
        if 0 < n <= |s| then
          match Unescape(s[n..])
          case Some(t) => Some([c] + t)
          case None => None
        else None
  }

  /** Splits one `key=value` piece and decodes both halves. */
  function DecodePair(piece: string): Option<(string, string)> {
    var kv := Text.Split(piece, '=');
    if |kv| != 2 then None
    else match (Unescape(kv[0]), Unescape(kv[1]))
      case (Some(k), Some(v)) => Some((k, v))
      case _ => None
  }

  function DecodePairs(pieces: seq<string>): Option<seq<(string, string)>> {
    if |pieces| == 0 then Some([])
    else match (DecodePair(pieces[0]), DecodePairs(pieces[1..]))
      case (Some(kv), Some(rest)) => Some([kv] + rest)
      case _ => None
  }

  /** Reads a query string back into its ordered key/value pairs. */
  function Parse(q: string): Option<seq<(string, string)>> {
    DecodePairs(Text.Split(q, '&'))
  }

  // ---------------------------------------------------------------------
  // Round trip
  // ---------------------------------------------------------------------

  lemma {:induction false} EscapeBytesAt(bs: seq<Byte>, k: nat)
    requires k < |bs|
    ensures EscapeBytes(bs)[3 * k..3 * k + 3] == EscapeByte(bs[k])
    decreases k
  {
    if k > 0 {
      EscapeBytesAt(bs[1..], k - 1);
      assert EscapeBytes(bs) == EscapeByte(bs[0]) + EscapeBytes(bs[1..]);
    }
  }

  /** An escaped byte is read back wherever it sits. */
  lemma ReadByteOf(s: string, i: nat, b: Byte)
    requires i + 3 <= |s| && s[i..i + 3] == EscapeByte(b)
    ensures ReadByte(s, i) == Some(b)
  {
    assert s[i] == '%';
    assert s[i + 1] == HexDigit(b / 16);
    assert s[i + 2] == HexDigit(b % 16);
    HexRoundTrip(b / 16);
    HexRoundTrip(b % 16);
  }

  lemma SliceOfPrefix(e: string, t: string, i: nat, j: nat)
    requires i <= j <= |e|
    ensures (e + t)[i..j] == e[i..j]
  {
  }

  /** Every escaped byte can be read back at its position, whatever follows. */
  lemma ReadEscapedByte(bs: seq<Byte>, t: string, k: nat)
    requires k < |bs|
    ensures ReadByte(EscapeBytes(bs) + t, 3 * k) == Some(bs[k])
  {
    var e := EscapeBytes(bs);
    var s := e + t;
    EscapeBytesAt(bs, k);
    SliceOfPrefix(e, t, 3 * k, 3 * k + 3);
    ReadByteOf(s, 3 * k, bs[k]);
  }

  /** The code point of a character is recovered from its UTF-8 bytes. */
  lemma Utf8Payload(c: char)
    ensures var bs: seq<int> := Utf8Encode(c); var cp := c as int;
      match |bs|
      case 1 => cp == bs[0]
      case 2 => 0xC0 <= bs[0] < 0xE0 && 0x80 <= bs[1] < 0xC0
                && cp == (bs[0] - 0xC0) * 64 + (bs[1] - 0x80)
      case 3 => 0xE0 <= bs[0] < 0xF0 && 0x80 <= bs[1] < 0xC0 && 0x80 <= bs[2] < 0xC0
                && cp == ((bs[0] - 0xE0) * 64 + (bs[1] - 0x80)) * 64 + (bs[2] - 0x80)
      case _ => 0xF0 <= bs[0] < 0xF8 && 0x80 <= bs[1] < 0xC0 && 0x80 <= bs[2] < 0xC0 && 0x80 <= bs[3] < 0xC0
                && cp == (((bs[0] - 0xF0) * 64 + (bs[1] - 0x80)) * 64 + (bs[2] - 0x80)) * 64 + (bs[3] - 0x80)
  {
    var cp := c as int;
    if cp < 0x80 {
    } else if cp < 0x800 {
      Utf8Payload2(c);
    } else if cp < 0x1_0000 {
      Utf8Payload3(c);
    } else {
      Utf8Payload4(c);
    }
  }

  lemma Utf8Payload2(c: char)
    requires 0x80 <= c as int < 0x800
    ensures var bs: seq<int> := Utf8Encode(c);
      && |bs| == 2 && 0xC0 <= bs[0] < 0xE0 && 0x80 <= bs[1] < 0xC0
      && c as int == (bs[0] - 0xC0) * 64 + (bs[1] - 0x80)
  {
    var cp := c as int;
    assert (cp / 64) * 64 + cp % 64 == cp;
  }

  lemma Utf8Payload3(c: char)
    requires 0x800 <= c as int < 0x1_0000
    ensures var bs: seq<int> := Utf8Encode(c);
      && |bs| == 3 && 0xE0 <= bs[0] < 0xF0 && 0x80 <= bs[1] < 0xC0 && 0x80 <= bs[2] < 0xC0
      && c as int == ((bs[0] - 0xE0) * 64 + (bs[1] - 0x80)) * 64 + (bs[2] - 0x80)
  {
    var cp := c as int;
    var a := cp / 64;
    assert a * 64 + cp % 64 == cp;
    assert (a / 64) * 64 + a % 64 == a;
  }

  lemma Utf8Payload4(c: char)
    requires 0x1_0000 <= c as int
    ensures var bs: seq<int> := Utf8Encode(c);
      && |bs| == 4 && 0xF0 <= bs[0] < 0xF8 && 0x80 <= bs[1] < 0xC0 && 0x80 <= bs[2] < 0xC0 && 0x80 <= bs[3] < 0xC0
      && c as int == (((bs[0] - 0xF0) * 64 + (bs[1] - 0x80)) * 64 + (bs[2] - 0x80)) * 64 + (bs[3] - 0x80)
  {
    var cp := c as int;
    var a := cp / 64;
    var b := a / 64;
    assert a * 64 + cp % 64 == cp;
    assert b * 64 + a % 64 == a;
    assert (b / 64) * 64 + b % 64 == b;
  }

  lemma Decode1(s: string, x0: int)
    requires ReadByte(s, 0) == Some(x0) && x0 < 0x80
    ensures DecodeChar(s) == ScalarOf(x0, 3)
  {
  }

  lemma Decode2(s: string, x0: int, x1: int)
    requires ReadByte(s, 0) == Some(x0) && 0xC0 <= x0 < 0xE0
    requires ReadByte(s, 3) == Some(x1) && 0x80 <= x1 < 0xC0
    ensures DecodeChar(s) == ScalarOf((x0 - 0xC0) * 64 + (x1 - 0x80), 6)
  {
    assert ContinuationAt(s, 3) == Some(x1 - 0x80);
  }

  lemma Decode3(s: string, x0: int, x1: int, x2: int)
    requires ReadByte(s, 0) == Some(x0) && 0xE0 <= x0 < 0xF0
    requires ReadByte(s, 3) == Some(x1) && 0x80 <= x1 < 0xC0
    requires ReadByte(s, 6) == Some(x2) && 0x80 <= x2 < 0xC0
    ensures DecodeChar(s) == ScalarOf(((x0 - 0xE0) * 64 + (x1 - 0x80)) * 64 + (x2 - 0x80), 9)
  {
    assert ContinuationAt(s, 3) == Some(x1 - 0x80);
    assert ContinuationAt(s, 6) == Some(x2 - 0x80);
  }

  lemma Decode4(s: string, x0: int, x1: int, x2: int, x3: int)
    requires ReadByte(s, 0) == Some(x0) && 0xF0 <= x0 < 0xF8
    requires ReadByte(s, 3) == Some(x1) && 0x80 <= x1 < 0xC0
    requires ReadByte(s, 6) == Some(x2) && 0x80 <= x2 < 0xC0
    requires ReadByte(s, 9) == Some(x3) && 0x80 <= x3 < 0xC0
    ensures DecodeChar(s) == ScalarOf((((x0 - 0xF0) * 64 + (x1 - 0x80)) * 64 + (x2 - 0x80)) * 64 + (x3 - 0x80), 12)
  {
    assert ContinuationAt(s, 3) == Some(x1 - 0x80);
    assert ContinuationAt(s, 6) == Some(x2 - 0x80);
    assert ContinuationAt(s, 9) == Some(x3 - 0x80);
  }

  /** The escaped UTF-8 bytes of a reserved character decode back to it. */
  lemma DecodeEscapedChar(c: char, t: string)
    requires !Unreserved(c)
    ensures DecodeChar(EscapeChar(c) + t) == Some((c, |EscapeChar(c)|))
  {
    var bs := Utf8Encode(c);
    EscapedCharBytes(c, bs);
    DecodeUtf8Bytes(c, bs, t);
  }

  /** The escaped UTF-8 bytes of any character decode back to it. */
  lemma DecodeUtf8Bytes(c: char, bs: seq<Byte>, t: string)
    requires bs == Utf8Encode(c)
    ensures DecodeChar(EscapeBytes(bs) + t) == Some((c, 3 * |bs|))
  {
    var cp := c as int;
    if cp < 0x80 {
      DecodeOneByte(c, bs, t);
    } else if cp < 0x800 {
      DecodeTwoBytes(c, bs, t);
    } else if cp < 0x1_0000 {
      DecodeThreeBytes(c, bs, t);
    } else {
      DecodeFourBytes(c, bs, t);
    }
  }

  lemma EscapedCharBytes(c: char, bs: seq<Byte>)
    requires !Unreserved(c) && bs == Utf8Encode(c)
    ensures EscapeChar(c) == EscapeBytes(bs) && |EscapeChar(c)| == 3 * |bs|
  {
  }

  lemma DecodeOneByte(c: char, bs: seq<Byte>, t: string)
    requires bs == Utf8Encode(c) && c as int < 0x80
    ensures DecodeChar(EscapeBytes(bs) + t) == Some((c, 3 * |bs|))
  {
    assert |bs| == 1;
    Utf8Payload(c);
    ReadEscapedByte(bs, t, 0);
    Decode1(EscapeBytes(bs) + t, bs[0]);
  }

  lemma DecodeTwoBytes(c: char, bs: seq<Byte>, t: string)
    requires bs == Utf8Encode(c) && 0x80 <= c as int < 0x800
    ensures DecodeChar(EscapeBytes(bs) + t) == Some((c, 3 * |bs|))
  {
    Utf8Payload2(c);
    DecodeEscaped2(bs, t);
  }

  lemma DecodeThreeBytes(c: char, bs: seq<Byte>, t: string)
    requires bs == Utf8Encode(c) && 0x800 <= c as int < 0x1_0000
    ensures DecodeChar(EscapeBytes(bs) + t) == Some((c, 3 * |bs|))
  {
    Utf8Payload3(c);
    DecodeEscaped3(bs, t);
  }

  lemma DecodeFourBytes(c: char, bs: seq<Byte>, t: string)
    requires bs == Utf8Encode(c) && 0x1_0000 <= c as int
    ensures DecodeChar(EscapeBytes(bs) + t) == Some((c, 3 * |bs|))
  {
    Utf8Payload4(c);
    DecodeEscaped4(bs, t);
  }

  lemma DecodeEscaped2(bs: seq<Byte>, t: string)
    requires |bs| == 2 && 0xC0 <= bs[0] < 0xE0 && 0x80 <= bs[1] < 0xC0
    ensures DecodeChar(EscapeBytes(bs) + t) == ScalarOf((bs[0] as int - 0xC0) * 64 + (bs[1] as int - 0x80), 6)
  {
    ReadEscapedByte(bs, t, 0);
    ReadEscapedByte(bs, t, 1);
    Decode2(EscapeBytes(bs) + t, bs[0], bs[1]);
  }

  lemma DecodeEscaped3(bs: seq<Byte>, t: string)
    requires |bs| == 3 && 0xE0 <= bs[0] < 0xF0 && 0x80 <= bs[1] < 0xC0 && 0x80 <= bs[2] < 0xC0
    ensures DecodeChar(EscapeBytes(bs) + t)
         == ScalarOf(((bs[0] as int - 0xE0) * 64 + (bs[1] as int - 0x80)) * 64 + (bs[2] as int - 0x80), 9)
  {
    ReadEscapedByte(bs, t, 0);
    ReadEscapedByte(bs, t, 1);
    ReadEscapedByte(bs, t, 2);
    Decode3(EscapeBytes(bs) + t, bs[0], bs[1], bs[2]);
  }

  lemma DecodeEscaped4(bs: seq<Byte>, t: string)
    requires |bs| == 4 && 0xF0 <= bs[0] < 0xF8 && 0x80 <= bs[1] < 0xC0
    requires 0x80 <= bs[2] < 0xC0 && 0x80 <= bs[3] < 0xC0
    ensures DecodeChar(EscapeBytes(bs) + t)
         == ScalarOf((((bs[0] as int - 0xF0) * 64 + (bs[1] as int - 0x80)) * 64 + (bs[2] as int - 0x80)) * 64 + (bs[3] as int - 0x80), 12)
  {
    ReadEscapedByte(bs, t, 0);
    ReadEscapedByte(bs, t, 1);
    ReadEscapedByte(bs, t, 2);
    ReadEscapedByte(bs, t, 3);
    Decode4(EscapeBytes(bs) + t, bs[0], bs[1], bs[2], bs[3]);
  }

  /** Unescaping the escape of one character yields that character, then
      whatever unescaping the remainder yields. */
  lemma UnescapeCons(c: char, t: string)
    ensures Unescape(EscapeChar(c) + t) == match Unescape(t)
                                           case Some(u) => Some([c] + u)
                                           case None => None
  {
    var s := EscapeChar(c) + t;
    if Unreserved(c) {
      assert s[0] == c && c != '%';
      assert s[1..] == t;
    } else {
      DecodeEscapedChar(c, t);
      assert s[|EscapeChar(c)|..] == t;
    }
  }

  /** Escaping loses nothing: `Unescape` recovers every string. */
  lemma {:induction false} UnescapeEscape(s: string)
    ensures Unescape(Escape(s)) == Some(s)
    decreases |s|
  {
    if |s| > 0 {
      UnescapeEscape(s[1..]);
      UnescapeCons(s[0], Escape(s[1..]));
      assert [s[0]] + s[1..] == s;
    }
  }

  /** Escaped text never holds the pair and field separators. */
  lemma EscapedHasNoSeparators(s: string)
    ensures '&' !in Escape(s) && '=' !in Escape(s)
    ensures '/' !in Escape(s) && '?' !in Escape(s)
  {
  }

  lemma EncodedPairSplits(kv: (string, string))
    ensures DecodePair(EncodePair(kv)) == Some(kv)
  {
    EscapedHasNoSeparators(kv.0);
    EscapedHasNoSeparators(kv.1);
    var piece := EncodePair(kv);
    assert piece == Text.Join([Escape(kv.0), Escape(kv.1)], '=');
    Text.SplitJoin([Escape(kv.0), Escape(kv.1)], '=');
    UnescapeEscape(kv.0);
    UnescapeEscape(kv.1);
  }

  lemma DecodeEncodedPairs(pairs: seq<(string, string)>)
    ensures DecodePairs(EncodePairs(pairs)) == Some(pairs)
  {
    var pieces := EncodePairs(pairs);
    forall i | 0 <= i < |pieces|
      ensures DecodePair(pieces[i]) == Some(pairs[i])
    {
      EncodedPairSplits(pairs[i]);
    }
    DecodeEach(pieces, pairs);
  }

  /** Pieces that each decode to their pair decode together to the list. */
  lemma {:induction false} DecodeEach(pieces: seq<string>, pairs: seq<(string, string)>)
    requires |pieces| == |pairs|
    requires forall i :: 0 <= i < |pieces| ==> DecodePair(pieces[i]) == Some(pairs[i])
    ensures DecodePairs(pieces) == Some(pairs)
    decreases |pieces|
  {
    if |pieces| > 0 {
      DecodeEach(pieces[1..], pairs[1..]);
      assert [pairs[0]] + pairs[1..] == pairs;
    }
  }

  /** `Parse` inverts `Stringify` on every non-empty list of pairs, whatever
      characters the keys and values hold. */
  lemma ParseStringify(pairs: seq<(string, string)>)
    requires |pairs| > 0
    ensures Parse(Stringify(pairs)) == Some(pairs)
  {
    var pieces := EncodePairs(pairs);
    forall i | 0 <= i < |pieces|
      ensures '&' !in pieces[i]
    {
      EscapedHasNoSeparators(pairs[i].0);
      EscapedHasNoSeparators(pairs[i].1);
    }
    Text.SplitJoin(pieces, '&');
    DecodeEncodedPairs(pairs);
  }

  /** A string of unreserved characters is its own escape. */
  lemma EscapeUnreserved(s: string)
    requires forall i :: 0 <= i < |s| ==> Unreserved(s[i])
    ensures Escape(s) == s
  {
    EscapeLength(s);
  }

  /** A pair of unreserved words is written exactly as `key=value`. */
  lemma EncodeUnreservedPair(k: string, v: string)
    requires forall i :: 0 <= i < |k| ==> Unreserved(k[i])
    requires forall i :: 0 <= i < |v| ==> Unreserved(v[i])
    ensures EncodePair((k, v)) == k + "=" + v
  {
    EscapeUnreserved(k);
    EscapeUnreserved(v);
  }

  /** Two pairs are written `k1=v1&k2=v2`. */
  lemma StringifyTwo(a: (string, string), b: (string, string))
    ensures Stringify([a, b]) == EncodePair(a) + "&" + EncodePair(b)
  {
    var pieces := EncodePairs([a, b]);
    assert pieces == [EncodePair(a), EncodePair(b)];
    assert pieces[1..] == [EncodePair(b)];
    assert Stringify([a, b]) == Text.Join(pieces, '&');
    assert Text.Join(pieces, '&') == pieces[0] + ['&'] + Text.Join(pieces[1..], '&');
  }

  /** A stringified query is plain ASCII, so its length in characters is its
      length in bytes. */
  lemma StringifyIsAscii(pairs: seq<(string, string)>)
    ensures forall i :: 0 <= i < |Stringify(pairs)| ==> Stringify(pairs)[i] as int < 128
  {
    var ascii := (c: char) => c as int < 128;
    var pieces := EncodePairs(pairs);
    forall j, k | 0 <= j < |pieces| && 0 <= k < |pieces[j]|
      ensures ascii(pieces[j][k])
    {
      PairIsAscii(pairs[j], k);
    }
    Text.JoinWithin(pieces, '&', ascii);
  }

  lemma PairIsAscii(kv: (string, string), k: nat)
    requires k < |EncodePair(kv)|
    ensures EncodePair(kv)[k] as int < 128
  {
    var e0 := Escape(kv.0);
    var e1 := Escape(kv.1);
    var c := EncodePair(kv)[k];
    if k < |e0| {
      assert c == e0[k];
      EscapedIsAscii(kv.0, k);
    } else if k > |e0| {
      assert c == e1[k - |e0| - 1];
      EscapedIsAscii(kv.1, k - |e0| - 1);
    }
  }

  lemma EscapedIsAscii(s: string, k: nat)
    requires k < |Escape(s)|
    ensures Escape(s)[k] as int < 128
  {
    var c := Escape(s)[k];
    assert Unreserved(c) || c == '%';
  }
}
