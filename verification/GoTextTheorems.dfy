/** What the text functions of GoText do, told without them: by code points, places and digits. */
module GoTextTheorems {
  import opened Wrappers
  import opened Bytes
  import opened GoText

  // ---- hex ----

  /** The number of a hex digit of either case, by code; negative for any other byte. */
  function DigitValue(b: byte): int {
    var n := b as int;
    if 48 <= n <= 57 then n - 48
    else if 97 <= n <= 102 then n - 87
    else if 65 <= n <= 70 then n - 55
    else -1
  }

  /** Two digits, of either case, for each byte. */
  predicate IsHexOf(text: seq<byte>, bytes: seq<byte>) {
    && |text| == 2 * |bytes|
    && forall i :: 0 <= i < |bytes| ==> IsPair(text[2 * i], text[2 * i + 1], bytes[i])
  }

  predicate IsPair(hi: byte, lo: byte, b: byte) {
    DigitValue(hi) >= 0 && DigitValue(lo) >= 0 && DigitValue(hi) * 16 + DigitValue(lo) == b as int
  }

  predicate IsLowerDigit(b: byte) {
    48 <= b <= 57 || 97 <= b <= 102
  }

  predicate IsLowerHex(text: seq<byte>) {
    forall i :: 0 <= i < |text| ==> IsLowerDigit(text[i])
  }

  lemma IsHexOfCons(text: seq<byte>, bytes: seq<byte>)
    requires |text| >= 2 && |bytes| >= 1
    ensures IsHexOf(text, bytes) <==> IsPair(text[0], text[1], bytes[0]) && IsHexOf(text[2..], bytes[1..])
  {
    var t, b := text[2..], bytes[1..];
    if IsPair(text[0], text[1], bytes[0]) && IsHexOf(t, b) {
      forall i | 0 <= i < |bytes|
        ensures IsPair(text[2 * i], text[2 * i + 1], bytes[i])
      {
        if i > 0 {
          assert IsPair(t[2 * (i - 1)], t[2 * (i - 1) + 1], b[i - 1]);
        }
      }
    }
    if IsHexOf(text, bytes) {
      assert IsPair(text[2 * 0], text[2 * 0 + 1], bytes[0]);
      forall i | 0 <= i < |b|
        ensures IsPair(t[2 * i], t[2 * i + 1], b[i])
      {
        assert IsPair(text[2 * (i + 1)], text[2 * (i + 1) + 1], bytes[i + 1]);
      }
    }
  }

  /** Decoding accepts exactly the hex of either case, and gives its bytes. */
  lemma {:induction false} HexDecodeExactly(text: seq<byte>, bytes: seq<byte>)
    ensures HexDecode(text) == Some(bytes) <==> IsHexOf(text, bytes)
    decreases |text|
  {
    if |text| >= 2 && |bytes| >= 1 {
      HexDecodeExactly(text[2..], bytes[1..]);
      IsHexOfCons(text, bytes);
      HexDecodeStep(text, bytes);
    } else if |text| >= 2 {
      assert bytes == [];
    }
  }

  lemma HexDecodeStep(text: seq<byte>, bytes: seq<byte>)
    requires |text| >= 2 && |bytes| >= 1
    ensures HexDecode(text) == Some(bytes) <==>
              IsPair(text[0], text[1], bytes[0]) && HexDecode(text[2..]) == Some(bytes[1..])
  {
    assert bytes == [bytes[0]] + bytes[1..];
    match (HexValue(text[0]), HexValue(text[1]), HexDecode(text[2..])) {
      case (Some(hi), Some(lo), Some(rest)) =>
        var decoded := [(hi as int * 16 + lo as int) as byte] + rest;
        assert decoded[1..] == rest && decoded[0] as int == DigitValue(text[0]) * 16 + DigitValue(text[1]);
      case _ =>
    }
  }

  lemma {:induction false} HexEncodeIsLower(bytes: seq<byte>)
    ensures IsLowerHex(HexEncode(bytes))
  {
    if |bytes| > 0 {
      HexEncodeIsLower(bytes[1..]);
    }
  }

  /** Encoding gives the hex in lower case, and nothing else does. */
  lemma HexEncodeExactly(bytes: seq<byte>, text: seq<byte>)
    ensures text == HexEncode(bytes) <==> IsHexOf(text, bytes) && IsLowerHex(text)
  {
    var hex := HexEncode(bytes);
    HexRoundTrip(bytes);
    HexDecodeExactly(hex, bytes);
    HexEncodeIsLower(bytes);
    if IsHexOf(text, bytes) && IsLowerHex(text) {
      LowerHexIsUnique(text, hex, bytes);
    }
  }

  lemma {:induction false} LowerHexIsUnique(a: seq<byte>, b: seq<byte>, bytes: seq<byte>)
    requires IsHexOf(a, bytes) && IsLowerHex(a) && IsHexOf(b, bytes) && IsLowerHex(b)
    ensures a == b
    decreases |bytes|
  {
    if |bytes| > 0 {
      IsHexOfCons(a, bytes);
      IsHexOfCons(b, bytes);
      SamePair(a[0], a[1], b[0], b[1], bytes[0]);
      LowerHexIsUnique(a[2..], b[2..], bytes[1..]);
      assert a == [a[0], a[1]] + a[2..] && b == [b[0], b[1]] + b[2..];
    }
  }

  lemma SamePair(a0: byte, a1: byte, b0: byte, b1: byte, b: byte)
    requires IsPair(a0, a1, b) && IsPair(b0, b1, b)
    requires IsLowerDigit(a0) && IsLowerDigit(a1) && IsLowerDigit(b0) && IsLowerDigit(b1)
    ensures a0 == b0 && a1 == b1
  {
  }

  // ---- white space ----

  /** The code points that unicode.IsSpace names. */
  predicate IsWhitePoint(n: int) {
    || 9 <= n <= 13 || n == 32 || n == 133 || n == 160 || n == 5760 || 8192 <= n <= 8202
    || n == 8232 || n == 8233 || n == 8239 || n == 8287 || n == 12288
  }

  /** The UTF-8 encoding, in one to three bytes, of the code point n. */
  predicate IsUtf8(c: seq<byte>, n: int) {
    if |c| == 1 then n < 128 && c[0] as int == n
    else if |c| == 2 then
      128 <= n < 2048 && c[0] as int == 192 + n / 64 && c[1] as int == 128 + n % 64
    else
      |c| == 3 && 2048 <= n < 65536
      && c[0] as int == 224 + n / 4096 && c[1] as int == 128 + n / 64 % 64 && c[2] as int == 128 + n % 64
  }

  /** The code point of one to three bytes taken as UTF-8. */
  function PointOf(c: seq<byte>): int {
    if |c| == 1 then c[0] as int
    else if |c| == 2 then (c[0] as int - 192) * 64 + (c[1] as int - 128)
    else if |c| == 3 then (c[0] as int - 224) * 4096 + (c[1] as int - 128) * 64 + (c[2] as int - 128)
    else 0
  }

  /** One white-space character in UTF-8. */
  predicate IsWhite(c: seq<byte>) {
    IsUtf8(c, PointOf(c)) && IsWhitePoint(PointOf(c))
  }

  lemma WhiteExactly(c: seq<byte>)
    ensures IsWhite(c) <==>
              || (|c| == 1 && IsAsciiSpace(c[0]))
              || (|c| == 2 && IsSpace2(c[0], c[1]))
              || (|c| == 3 && IsSpace3(c[0], c[1], c[2]))
  {
  }

  /** No white-space character begins the text, and none ends it. */
  ghost predicate IsBare(s: seq<byte>) {
    && (forall n :: 0 <= n <= |s| ==> !IsWhite(s[..n]))
    && (forall n :: 0 <= n <= |s| ==> !IsWhite(s[n..]))
  }

  lemma LeadingExactly(s: seq<byte>)
    ensures LeadingSpace(s) > 0 ==> IsWhite(s[..LeadingSpace(s)])
    ensures LeadingSpace(s) == 0 ==> forall n :: 0 <= n <= |s| ==> !IsWhite(s[..n])
  {
    WhiteExactly(s[..LeadingSpace(s)]);
    forall n | 0 <= n <= |s| && LeadingSpace(s) == 0
      ensures !IsWhite(s[..n])
    {
      WhiteExactly(s[..n]);
    }
  }

  lemma TrailingExactly(s: seq<byte>)
    ensures TrailingSpace(s) > 0 ==> IsWhite(s[|s| - TrailingSpace(s)..])
    ensures TrailingSpace(s) == 0 ==> forall n :: 0 <= n <= |s| ==> !IsWhite(s[n..])
  {
    WhiteExactly(s[|s| - TrailingSpace(s)..]);
    forall n | 0 <= n <= |s| && TrailingSpace(s) == 0
      ensures !IsWhite(s[n..])
    {
      WhiteExactly(s[n..]);
    }
  }

  function Join(cs: seq<seq<byte>>): seq<byte> {
    if |cs| == 0 then [] else cs[0] + Join(cs[1..])
  }

  ghost predicate AllWhite(cs: seq<seq<byte>>) {
    forall k :: 0 <= k < |cs| ==> IsWhite(cs[k])
  }

  lemma {:induction false} JoinConcat(a: seq<seq<byte>>, b: seq<seq<byte>>)
    ensures Join(a + b) == Join(a) + Join(b)
  {
    if |a| == 0 {
      assert a + b == b;
    } else {
      JoinConcat(a[1..], b);
      assert (a + b)[1..] == a[1..] + b && (a + b)[0] == a[0];
      Assoc(a[0], Join(a[1..]), Join(b));
    }
  }

  lemma JoinOne(c: seq<byte>)
    ensures Join([c]) == c
  {
    assert [c][1..] == [];
  }

  lemma Assoc(a: seq<byte>, b: seq<byte>, c: seq<byte>)
    ensures a + b + c == a + (b + c)
  {
  }

  lemma ConsWhite(c: seq<byte>, cs: seq<seq<byte>>)
    requires IsWhite(c) && AllWhite(cs)
    ensures AllWhite([c] + cs) && Join([c] + cs) == c + Join(cs)
  {
    assert ([c] + cs)[1..] == cs;
  }

  lemma SnocWhite(cs: seq<seq<byte>>, c: seq<byte>)
    requires IsWhite(c) && AllWhite(cs)
    ensures AllWhite(cs + [c]) && Join(cs + [c]) == Join(cs) + c
  {
    JoinConcat(cs, [c]);
    JoinOne(c);
  }

  lemma TrimLeftStep(s: seq<byte>) returns (c: seq<byte>, rest: seq<byte>)
    requires LeadingSpace(s) > 0
    ensures IsWhite(c) && s == c + rest && |rest| < |s| && TrimLeft(s) == TrimLeft(rest)
  {
    var n := LeadingSpace(s);
    c, rest := s[..n], s[n..];
    LeadingExactly(s);
  }

  lemma TrimRightStep(s: seq<byte>) returns (rest: seq<byte>, c: seq<byte>)
    requires TrailingSpace(s) > 0
    ensures IsWhite(c) && s == rest + c && |rest| < |s| && TrimRight(s) == TrimRight(rest)
  {
    var n := |s| - TrailingSpace(s);
    rest, c := s[..n], s[n..];
    TrailingExactly(s);
  }

  lemma {:induction false} TrimLeftTakes(s: seq<byte>) returns (lead: seq<seq<byte>>)
    ensures AllWhite(lead) && s == Join(lead) + TrimLeft(s) && LeadingSpace(TrimLeft(s)) == 0
    decreases |s|
  {
    if LeadingSpace(s) == 0 {
      lead := [];
    } else {
      var c, rest := TrimLeftStep(s);
      var more := TrimLeftTakes(rest);
      lead := [c] + more;
      ConsWhite(c, more);
      Assoc(c, Join(more), TrimLeft(rest));
    }
  }

  lemma {:induction false} TrimRightTakes(s: seq<byte>) returns (tail: seq<seq<byte>>)
    ensures AllWhite(tail) && s == TrimRight(s) + Join(tail) && TrailingSpace(TrimRight(s)) == 0
    decreases |s|
  {
    if TrailingSpace(s) == 0 {
      tail := [];
    } else {
      var rest, c := TrimRightStep(s);
      var more := TrimRightTakes(rest);
      tail := more + [c];
      SnocWhite(more, c);
      Assoc(TrimRight(rest), Join(more), c);
    }
  }

  /** A prefix of a text that no white space begins is not begun by any either. */
  lemma PrefixIsBareToo(s: seq<byte>, n: nat)
    requires n <= |s| && LeadingSpace(s) == 0
    ensures LeadingSpace(s[..n]) == 0
  {
  }

  /** Trimming takes white-space characters off both ends, and all of them. */
  lemma TrimSpaceExactly(s: seq<byte>) returns (lead: seq<seq<byte>>, tail: seq<seq<byte>>)
    ensures AllWhite(lead) && AllWhite(tail) && s == Join(lead) + TrimSpace(s) + Join(tail)
    ensures IsBare(TrimSpace(s))
  {
    lead := TrimLeftTakes(s);
    tail := TrimRightTakes(TrimLeft(s));
    var core := TrimSpace(s);
    assert core == TrimLeft(s)[..|core|];
    PrefixIsBareToo(TrimLeft(s), |core|);
    LeadingExactly(core);
    TrailingExactly(core);
    Assoc(Join(lead), core, Join(tail));
  }

  lemma LeadingOfWhite(c: seq<byte>, rest: seq<byte>)
    requires IsWhite(c)
    ensures LeadingSpace(c + rest) == |c| && |c| > 0
  {
    WhiteExactly(c);
  }

  lemma TrailingOfWhite(front: seq<byte>, c: seq<byte>)
    requires IsWhite(c)
    ensures TrailingSpace(front + c) == |c| && |c| > 0
  {
    WhiteExactly(c);
    var s := front + c;
    assert forall k :: 0 <= k < |c| ==> s[|front| + k] == c[k];
  }

  lemma {:induction false} TrimLeftSkips(lead: seq<seq<byte>>, s: seq<byte>)
    requires AllWhite(lead)
    ensures TrimLeft(Join(lead) + s) == TrimLeft(s)
  {
    if |lead| == 0 {
      assert Join(lead) + s == s;
    } else {
      var rest := Join(lead[1..]) + s;
      TrimLeftSkips(lead[1..], s);
      LeadingOfWhite(lead[0], rest);
      Assoc(lead[0], Join(lead[1..]), s);
      assert (lead[0] + rest)[|lead[0]|..] == rest;
    }
  }

  lemma {:induction false} TrimRightSkips(s: seq<byte>, tail: seq<seq<byte>>)
    requires AllWhite(tail)
    ensures TrimRight(s + Join(tail)) == TrimRight(s)
    decreases |tail|
  {
    if |tail| == 0 {
      assert s + Join(tail) == s;
    } else {
      TrimRightSkips(s + tail[0], tail[1..]);
      TrailingOfWhite(s, tail[0]);
      Assoc(s, tail[0], Join(tail[1..]));
      assert (s + tail[0])[..|s|] == s;
    }
  }

  /** White space around a text that starts and ends with a solid character does not matter. */
  lemma WhiteAround(lead: seq<seq<byte>>, s: seq<byte>, tail: seq<seq<byte>>)
    requires AllWhite(lead) && AllWhite(tail)
    requires |s| > 0 && IsSolid(s[0]) && IsSolid(s[|s| - 1])
    ensures TrimSpace(Join(lead) + s + Join(tail)) == s
  {
    Assoc(Join(lead), s, Join(tail));
    TrimLeftSkips(lead, s + Join(tail));
    SolidStart(s, Join(tail));
    TrimRightSkips(s, tail);
    SolidEndsStay(s);
  }

  lemma SolidStart(s: seq<byte>, rest: seq<byte>)
    requires |s| > 0 && IsSolid(s[0]) && IsSolid(s[|s| - 1])
    ensures TrimLeft(s + rest) == s + rest && TrimRight(s) == s
  {
  }

  // ---- queries ----

  /** Pairs written one after the other, "&" between them. */
  function EncodePairs(pairs: seq<Pair>): seq<byte> {
    if |pairs| == 0 then []
    else if |pairs| == 1 then EncodePair(pairs[0].key, pairs[0].value)
    else EncodePair(pairs[0].key, pairs[0].value) + [38] + EncodePairs(pairs[1..])
  }

  /** `text` is an escaped form of `bytes`: "%" and two digits for any byte, "+" for a space, others as they are. */
  predicate IsEscapeOf(text: seq<byte>, bytes: seq<byte>)
    decreases |text|
  {
    if |text| == 0 then bytes == []
    else
      |bytes| > 0
      && if text[0] == 37 then
           |text| >= 3 && IsPair(text[1], text[2], bytes[0]) && IsEscapeOf(text[3..], bytes[1..])
         else
           bytes[0] == (if text[0] == 43 then 32 else text[0]) && IsEscapeOf(text[1..], bytes[1..])
  }

  lemma UnescapeStep(text: seq<byte>, bytes: seq<byte>)
    requires |text| > 0 && |bytes| > 0
    ensures QueryUnescape(text) == Some(bytes) <==>
              if text[0] == 37 then
                && |text| >= 3 && IsPair(text[1], text[2], bytes[0])
                && QueryUnescape(text[3..]) == Some(bytes[1..])
              else
                && bytes[0] == (if text[0] == 43 then 32 else text[0])
                && QueryUnescape(text[1..]) == Some(bytes[1..])
  {
    assert bytes == [bytes[0]] + bytes[1..];
    var first: byte := if text[0] == 43 then 32 else text[0];
    if text[0] != 37 && QueryUnescape(text[1..]).Some? {
      assert ([first] + QueryUnescape(text[1..]).value)[1..] == QueryUnescape(text[1..]).value;
    } else if text[0] == 37 && |text| >= 3 {
      match (HexValue(text[1]), HexValue(text[2]), QueryUnescape(text[3..])) {
        case (Some(hi), Some(lo), Some(rest)) =>
          var decoded := [(hi as int * 16 + lo as int) as byte] + rest;
          assert decoded[1..] == rest && decoded[0] as int == DigitValue(text[1]) * 16 + DigitValue(text[2]);
        case _ =>
      }
    }
  }

  /** Unescaping accepts exactly the escaped forms, and gives their bytes. */
  lemma {:induction false} UnescapeExactly(text: seq<byte>, bytes: seq<byte>)
    ensures QueryUnescape(text) == Some(bytes) <==> IsEscapeOf(text, bytes)
    decreases |text|
  {
    if |text| > 0 && |bytes| > 0 {
      UnescapeStep(text, bytes);
      UnescapeExactly(text[1..], bytes[1..]);
      if |text| >= 3 {
        UnescapeExactly(text[3..], bytes[1..]);
      }
    }
  }

  /** `text` is the parameter `p`: an escaped key, and an escaped value after the first "=" if there is one. */
  ghost predicate IsParameter(text: seq<byte>, p: Pair) {
    || (61 !in text && p.value == [] && IsEscapeOf(text, p.key))
    || exists n :: 0 <= n < |text| && IsSplit(text, n, p)
  }

  predicate IsSplit(text: seq<byte>, n: nat, p: Pair)
    requires n < |text|
  {
    && text[n] == 61 && 61 !in text[..n]
    && IsEscapeOf(text[..n], p.key) && IsEscapeOf(text[n + 1..], p.value)
  }

  lemma PairExactly(text: seq<byte>, p: Pair)
    ensures ParsePair(text) == Some(p) <==> IsParameter(text, p)
  {
    var n := Find(text, EQUALS);
    UnescapeExactly(text[..n], p.key);
    UnescapeExactly(if n < |text| then text[n + 1..] else [], p.value);
    assert forall k :: 0 <= k < n ==> text[..n][k] == text[k];
    if n == |text| {
      assert text[..n] == text;
    }
    forall m: nat | m < |text| && IsSplit(text, m, p)
      ensures m == n
    {
      assert forall k :: 0 <= k < m ==> text[..m][k] == text[k];
      FindPast(text, EQUALS, m);
    }
    if n < |text| && ParsePair(text) == Some(p) {
      assert IsSplit(text, n, p);
    }
  }

  /** A piece is nothing if empty, one parameter if it is well formed, and otherwise spoils the query. */
  lemma PieceExactly(piece: seq<byte>)
    ensures piece == [] ==> ParsePiece(piece) == Some([])
    ensures forall p :: piece != [] && 59 !in piece ==> (ParsePiece(piece) == Some([p]) <==> IsParameter(piece, p))
    ensures piece != [] && (59 in piece || forall p :: !IsParameter(piece, p)) ==> ParsePiece(piece) == None
  {
    forall p
      ensures ParsePair(piece) == Some(p) <==> IsParameter(piece, p)
    {
      PairExactly(piece, p);
    }
  }

  /** A query is read piece by piece: one that is wrong spoils it, wherever it stands. */
  lemma QueryConcat(piece: seq<byte>, rest: seq<byte>)
    requires 38 !in piece
    ensures ParseQuery(piece + [38] + rest) ==
            match (ParsePiece(piece), ParseQuery(rest))
            case (Some(first), Some(more)) => Some(first + more)
            case _ => None
  {
    var query := piece + [38] + rest;
    FindPast(query, 38, |piece|);
    assert query[..|piece|] == piece && query[|piece| + 1..] == rest;
  }

  /** Every list of pairs comes back from the query it is written as, in order. */
  lemma {:induction false} PairsRoundTrip(pairs: seq<Pair>)
    ensures ParseQuery(EncodePairs(pairs)) == Some(pairs)
  {
    if |pairs| == 1 {
      PairRoundTrip(pairs[0].key, pairs[0].value);
      assert pairs == [pairs[0]];
    } else if |pairs| > 1 {
      var p := pairs[0];
      PairsRoundTrip(pairs[1..]);
      PairHasNoSeparator(p.key, p.value);
      PieceRoundTrip(p.key, p.value);
      QueryConcat(EncodePair(p.key, p.value), EncodePairs(pairs[1..]));
      assert pairs == [p] + pairs[1..];
    }
  }

  lemma {:induction false} SemicolonSpoils(query: seq<byte>)
    requires 59 in query
    ensures ParseQuery(query) == None
    decreases |query|
  {
    var n := Find(query, AMPERSAND);
    if 59 !in query[..n] {
      var k :| 0 <= k < |query| && query[k] == 59;
      assert forall j :: 0 <= j < n ==> query[..n][j] == query[j];
      assert AfterPiece(query)[k - n - 1] == 59;
      SemicolonSpoils(AfterPiece(query));
    }
  }

  /** Get gives the value of the first pair with the key. */
  lemma {:induction false} GetExactly(pairs: seq<Pair>, key: seq<byte>, i: nat)
    requires i <= |pairs| && forall j :: 0 <= j < i ==> pairs[j].key != key
    ensures i < |pairs| && pairs[i].key == key ==> Get(pairs, key) == pairs[i].value
    ensures i == |pairs| ==> Get(pairs, key) == []
    decreases i
  {
    if i > 0 {
      GetExactly(pairs[1..], key, i - 1);
    }
  }

  /** Encoded pairs are solid characters throughout. */
  lemma {:induction false} EncodedIsSolid(pairs: seq<Pair>)
    ensures forall k :: 0 <= k < |EncodePairs(pairs)| ==> IsSolid(EncodePairs(pairs)[k])
  {
    if |pairs| > 0 {
      PairIsSolid(pairs[0]);
      EncodedIsSolid(pairs[1..]);
    }
  }

  lemma PairIsSolid(p: Pair)
    ensures forall k :: 0 <= k < |EncodePair(p.key, p.value)| ==> IsSolid(EncodePair(p.key, p.value)[k])
  {
    EscapeRoundTrip(p.key);
    EscapeRoundTrip(p.value);
    SafeIsSolid(QueryEscape(p.key));
    SafeIsSolid(QueryEscape(p.value));
  }

  lemma SafeIsSolid(s: seq<byte>)
    requires forall k :: 0 <= k < |s| ==> IsQuerySafe(s[k])
    ensures forall k :: 0 <= k < |s| ==> IsSolid(s[k])
  {
  }
}
