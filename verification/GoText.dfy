/**
 The parts of Go's strings, encoding/hex and net/url that the key codecs use, on strings as Go has
 them: sequences of bytes.
 */
module GoText {
  import opened Wrappers
  import opened Bytes

  /** A literal in ASCII. */
  function Ascii(s: string): (r: seq<byte>)
    ensures |r| == |s|
    ensures forall k :: 0 <= k < |s| ==> r[k] == (s[k] as int % 256) as byte
  {
    seq(|s|, k requires 0 <= k < |s| => (s[k] as int % 256) as byte)
  }

  // ---- strings.TrimSpace ----

  predicate IsAsciiSpace(b: byte) {
    9 <= b <= 13 || b == 32
  }

  predicate IsSpace2(b0: byte, b1: byte) {
    b0 == 0xC2 && (b1 == 0x85 || b1 == 0xA0)
  }

  predicate IsSpace3(b0: byte, b1: byte, b2: byte) {
    || (b0 == 0xE1 && b1 == 0x9A && b2 == 0x80)
    || (b0 == 0xE2 && b1 == 0x80 && (0x80 <= b2 <= 0x8A || b2 == 0xA8 || b2 == 0xA9 || b2 == 0xAF))
    || (b0 == 0xE2 && b1 == 0x81 && b2 == 0x9F)
    || (b0 == 0xE3 && b1 == 0x80 && b2 == 0x80)
  }

  /** The length of the white-space character (in UTF-8) that begins s; 0 if there is none. */
  function LeadingSpace(s: seq<byte>): (n: nat)
    ensures n <= |s|
  {
    if |s| >= 1 && IsAsciiSpace(s[0]) then 1
    else if |s| >= 2 && IsSpace2(s[0], s[1]) then 2
    else if |s| >= 3 && IsSpace3(s[0], s[1], s[2]) then 3
    else 0
  }

  function TrailingSpace(s: seq<byte>): (n: nat)
    ensures n <= |s|
  {
    var e := |s|;
    if e >= 1 && IsAsciiSpace(s[e - 1]) then 1
    else if e >= 2 && IsSpace2(s[e - 2], s[e - 1]) then 2
    else if e >= 3 && IsSpace3(s[e - 3], s[e - 2], s[e - 1]) then 3
    else 0
  }

  function TrimLeft(s: seq<byte>): seq<byte>
    decreases |s|
  {
    if LeadingSpace(s) == 0 then s else TrimLeft(s[LeadingSpace(s)..])
  }

  function TrimRight(s: seq<byte>): seq<byte>
    decreases |s|
  {
    if TrailingSpace(s) == 0 then s else TrimRight(s[..|s| - TrailingSpace(s)])
  }

  function TrimSpace(s: seq<byte>): seq<byte> {
    TrimRight(TrimLeft(s))
  }

  /** An ASCII character that is not white space. */
  predicate IsSolid(b: byte) {
    b < 128 && !IsAsciiSpace(b)
  }

  lemma SolidEndsStay(s: seq<byte>)
    requires |s| > 0 && IsSolid(s[0]) && IsSolid(s[|s| - 1])
    ensures TrimSpace(s) == s
  {
  }

  /** A prefix of solid characters survives trimming. */
  lemma {:induction false} SolidPrefixStays(s: seq<byte>, n: nat)
    requires 0 < n <= |s| && forall k :: 0 <= k < n ==> IsSolid(s[k])
    ensures |TrimSpace(s)| >= n && TrimSpace(s)[..n] == s[..n]
  {
    RightTrimKeeps(s, n);
  }

  lemma {:induction false} RightTrimKeeps(s: seq<byte>, n: nat)
    requires 0 < n <= |s| && IsSolid(s[n - 1])
    ensures |TrimRight(s)| >= n && TrimRight(s)[..n] == s[..n]
    decreases |s|
  {
    var t := TrailingSpace(s);
    if t > 0 {
      assert s[|s| - t..][0] == s[|s| - t];
      assert forall k :: |s| - t <= k < |s| ==> !IsSolid(s[k]);
      RightTrimKeeps(s[..|s| - t], n);
    }
  }

  // ---- encoding/hex ----

  function HexDigit(n: int): byte
    requires 0 <= n < 16
  {
    if n < 10 then (48 + n) as byte else (87 + n) as byte
  }

  /** A four-bit digit. */
  type Nibble = n: int | 0 <= n < 16

  function HexValue(b: byte): Option<Nibble> {
    if 48 <= b <= 57 then Some(b as int - 48)
    else if 97 <= b <= 102 then Some(b as int - 87)
    else if 65 <= b <= 70 then Some(b as int - 55)
    else None
  }

  function HexEncode(bytes: seq<byte>): seq<byte> {
    if |bytes| == 0 then []
    else [HexDigit(bytes[0] as int / 16), HexDigit(bytes[0] as int % 16)] + HexEncode(bytes[1..])
  }

  /** Pairs of hex digits of either case; anything else, or an odd digit, is an error. */
  function HexDecode(s: seq<byte>): Option<seq<byte>> {
    if |s| == 0 then Some([])
    else if |s| == 1 then None
    else
      match (HexValue(s[0]), HexValue(s[1]), HexDecode(s[2..]))
      case (Some(hi), Some(lo), Some(rest)) => Some([(hi as int * 16 + lo as int) as byte] + rest)
      case _ => None
  }

  lemma HexDigitRoundTrip(n: int)
    requires 0 <= n < 16
    ensures HexValue(HexDigit(n)) == Some(n) && IsSolid(HexDigit(n)) && IsUnreserved(HexDigit(n))
  {
  }

  lemma HexPair(b: byte, s: seq<byte>, rest: seq<byte>)
    requires HexDecode(s) == Some(rest)
    ensures HexDecode([HexDigit(b as int / 16), HexDigit(b as int % 16)] + s) == Some([b] + rest)
  {
    var t := [HexDigit(b as int / 16), HexDigit(b as int % 16)] + s;
    HexDigitRoundTrip(b as int / 16);
    HexDigitRoundTrip(b as int % 16);
    assert t[2..] == s;
    assert b as int / 16 * 16 + b as int % 16 == b as int;
  }

  lemma {:induction false} HexRoundTrip(bytes: seq<byte>)
    ensures HexDecode(HexEncode(bytes)) == Some(bytes)
    ensures |HexEncode(bytes)| == 2 * |bytes|
  {
    if |bytes| > 0 {
      HexRoundTrip(bytes[1..]);
      HexPair(bytes[0], HexEncode(bytes[1..]), bytes[1..]);
      assert bytes == [bytes[0]] + bytes[1..];
    }
  }

  lemma {:induction false} HexIsSolid(bytes: seq<byte>)
    ensures forall k :: 0 <= k < |HexEncode(bytes)| ==>
              IsSolid(HexEncode(bytes)[k]) && IsUnreserved(HexEncode(bytes)[k])
  {
    if |bytes| > 0 {
      HexIsSolid(bytes[1..]);
      HexDigitRoundTrip(bytes[0] as int / 16);
      HexDigitRoundTrip(bytes[0] as int % 16);
    }
  }

  // ---- net/url ----

  /** Letters, digits, "-", "_", "." and "~" stand for themselves in a query. */
  predicate IsUnreserved(b: byte) {
    || 48 <= b <= 57 || 65 <= b <= 90 || 97 <= b <= 122
    || b == 45 || b == 95 || b == 46 || b == 126
  }

  const PLUS: byte := 43
  const PERCENT: byte := 37
  const SPACE: byte := 32
  const AMPERSAND: byte := 38
  const SEMICOLON: byte := 59
  const EQUALS: byte := 61

  function UpperHexDigit(n: int): byte
    requires 0 <= n < 16
  {
    if n < 10 then (48 + n) as byte else (55 + n) as byte
  }

  function QueryEscape(s: seq<byte>): seq<byte> {
    if |s| == 0 then []
    else
      (if s[0] == SPACE then [PLUS]
       else if IsUnreserved(s[0]) then [s[0]]
       else [PERCENT, UpperHexDigit(s[0] as int / 16), UpperHexDigit(s[0] as int % 16)])
      + QueryEscape(s[1..])
  }

  function QueryUnescape(s: seq<byte>): Option<seq<byte>> {
    if |s| == 0 then Some([])
    else if s[0] == PERCENT then
      if |s| < 3 then None
      else
        match (HexValue(s[1]), HexValue(s[2]), QueryUnescape(s[3..]))
        case (Some(hi), Some(lo), Some(rest)) => Some([(hi as int * 16 + lo as int) as byte] + rest)
        case _ => None
    else
      match QueryUnescape(s[1..])
      case None => None
      case Some(rest) => Some([if s[0] == PLUS then SPACE else s[0]] + rest)
  }

  /** The position of the first b, or the length. */
  function Find(s: seq<byte>, b: byte): (n: nat)
    ensures n <= |s|
    ensures forall k :: 0 <= k < n ==> s[k] != b
    ensures n < |s| ==> s[n] == b
  {
    if |s| == 0 || s[0] == b then 0 else 1 + Find(s[1..], b)
  }

  datatype Pair = Pair(key: seq<byte>, value: seq<byte>)

  /** One "key=value" of a query; no "=" means an empty value. */
  function ParsePair(s: seq<byte>): Option<Pair> {
    var n := Find(s, EQUALS);
    match (QueryUnescape(s[..n]), QueryUnescape(if n < |s| then s[n + 1..] else []))
    case (Some(key), Some(value)) => Some(Pair(key, value))
    case _ => None
  }

  /** A piece between "&"s: an error if malformed or if it has a semicolon; nothing if empty. */
  function ParsePiece(piece: seq<byte>): Option<seq<Pair>> {
    if SEMICOLON in piece then None
    else if |piece| == 0 then Some([])
    else
      match ParsePair(piece)
      case None => None
      case Some(p) => Some([p])
  }

  /** What follows the first "&". */
  function AfterPiece(query: seq<byte>): (r: seq<byte>)
    ensures |query| > 0 ==> |r| < |query|
  {
    var n := Find(query, AMPERSAND);
    if n < |query| then query[n + 1..] else []
  }

  /** url.ParseQuery: the pairs in order, or an error if any piece is one. */
  function ParseQuery(query: seq<byte>): Option<seq<Pair>>
    decreases |query|
  {
    if |query| == 0 then Some([])
    else
      match (ParsePiece(query[..Find(query, AMPERSAND)]), ParseQuery(AfterPiece(query)))
      case (Some(first), Some(rest)) => Some(first + rest)
      case _ => None
  }

  /** Values.Get: the first value of a key, or the empty string. */
  function Get(pairs: seq<Pair>, key: seq<byte>): seq<byte> {
    if |pairs| == 0 then []
    else if pairs[0].key == key then pairs[0].value
    else Get(pairs[1..], key)
  }

  /** Values.Encode of a single key and value. */
  function EncodePair(key: seq<byte>, value: seq<byte>): seq<byte> {
    QueryEscape(key) + [EQUALS] + QueryEscape(value)
  }

  lemma UpperHexRoundTrip(n: int)
    requires 0 <= n < 16
    ensures HexValue(UpperHexDigit(n)) == Some(n) && IsUnreserved(UpperHexDigit(n))
  {
  }

  predicate IsQuerySafe(b: byte) {
    IsUnreserved(b) || b == PLUS || b == PERCENT
  }

  lemma UnescapePercent(b: byte, rest: seq<byte>, decoded: seq<byte>)
    requires QueryUnescape(rest) == Some(decoded)
    ensures QueryUnescape([PERCENT, UpperHexDigit(b as int / 16), UpperHexDigit(b as int % 16)] + rest)
            == Some([b] + decoded)
  {
    var hi, lo := UpperHexDigit(b as int / 16), UpperHexDigit(b as int % 16);
    var s := [PERCENT, hi, lo] + rest;
    UpperHexRoundTrip(b as int / 16);
    UpperHexRoundTrip(b as int % 16);
    assert s[3..] == rest && s[1] == hi && s[2] == lo;
    assert b as int / 16 * 16 + b as int % 16 == b as int;
  }

  lemma UnescapePlain(b: byte, rest: seq<byte>, decoded: seq<byte>)
    requires QueryUnescape(rest) == Some(decoded) && b != PERCENT
    ensures QueryUnescape([b] + rest) == Some([if b == PLUS then SPACE else b] + decoded)
  {
    var s := [b] + rest;
    assert s[1..] == rest;
  }

  /** Unescaping undoes escaping, and an escaped text has none of a query's separators. */
  lemma {:induction false} EscapeRoundTrip(s: seq<byte>)
    ensures QueryUnescape(QueryEscape(s)) == Some(s)
    ensures forall k :: 0 <= k < |QueryEscape(s)| ==> IsQuerySafe(QueryEscape(s)[k])
  {
    if |s| > 0 {
      EscapeRoundTrip(s[1..]);
      var rest := QueryEscape(s[1..]);
      assert s == [s[0]] + s[1..];
      if s[0] == SPACE {
        UnescapePlain(PLUS, rest, s[1..]);
      } else if IsUnreserved(s[0]) {
        UnescapePlain(s[0], rest, s[1..]);
      } else {
        UnescapePercent(s[0], rest, s[1..]);
        UpperHexRoundTrip(s[0] as int / 16);
        UpperHexRoundTrip(s[0] as int % 16);
      }
    }
  }

  lemma PieceRoundTrip(key: seq<byte>, value: seq<byte>)
    ensures ParsePair(EncodePair(key, value)) == Some(Pair(key, value))
  {
    var k, v := QueryEscape(key), QueryEscape(value);
    var s := EncodePair(key, value);
    EscapeRoundTrip(key);
    EscapeRoundTrip(value);
    FindPast(s, EQUALS, |k|);
    assert s[..|k|] == k && s[|k| + 1..] == v;
  }

  /** An encoded pair has neither "&" nor ";". */
  lemma PairHasNoSeparator(key: seq<byte>, value: seq<byte>)
    ensures AMPERSAND !in EncodePair(key, value) && SEMICOLON !in EncodePair(key, value)
  {
    EscapeRoundTrip(key);
    EscapeRoundTrip(value);
    SafeHasNoSeparator(QueryEscape(key));
    SafeHasNoSeparator(QueryEscape(value));
  }

  lemma SafeHasNoSeparator(s: seq<byte>)
    requires forall k :: 0 <= k < |s| ==> IsQuerySafe(s[k])
    ensures AMPERSAND !in s && SEMICOLON !in s
  {
  }

  /** An encoded pair parses back to itself. */
  lemma PairRoundTrip(key: seq<byte>, value: seq<byte>)
    ensures ParseQuery(EncodePair(key, value)) == Some([Pair(key, value)])
  {
    var s := EncodePair(key, value);
    PairHasNoSeparator(key, value);
    FindPast(s, AMPERSAND, |s|);
    PieceRoundTrip(key, value);
    OnePiece(s, [Pair(key, value)]);
  }

  lemma OnePiece(s: seq<byte>, pairs: seq<Pair>)
    requires |s| > 0 && Find(s, AMPERSAND) == |s| && ParsePiece(s) == Some(pairs)
    ensures ParseQuery(s) == Some(pairs)
  {
    assert s[..|s|] == s;
    assert AfterPiece(s) == [];
    assert pairs + [] == pairs;
  }

  /** The first b is at n if none comes before. */
  lemma FindPast(s: seq<byte>, b: byte, n: nat)
    requires n <= |s| && (forall k :: 0 <= k < n ==> s[k] != b) && (n < |s| ==> s[n] == b)
    ensures Find(s, b) == n
  {
  }
}
