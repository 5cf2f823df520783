/**
 Standard base64 with padding (section 4 of RFC 4648), as encoding/base64's StdEncoding has it:
 the decoder skips carriage returns and line feeds, wants the padding, and does not insist that
 the unused bits before the padding are zero.
 */
module Base64 {
  import opened Wrappers
  import opened Bytes

  /** A six-bit digit. */
  type Digit = d: int | 0 <= d < 64 witness 0

  function CharOf(d: Digit): char {
    if d < 26 then 'A' + d as char
    else if d < 52 then 'a' + (d - 26) as char
    else if d < 62 then '0' + (d - 52) as char
    else if d == 62 then '+'
    else '/'
  }

  function DigitOf(c: char): Option<Digit> {
    if 'A' <= c <= 'Z' then Some(c as int - 'A' as int)
    else if 'a' <= c <= 'z' then Some(c as int - 'a' as int + 26)
    else if '0' <= c <= '9' then Some(c as int - '0' as int + 52)
    else if c == '+' then Some(62)
    else if c == '/' then Some(63)
    else None
  }

  const PAD: char := '='

  // Three bytes are four digits, cut at every sixth bit.

  function Digit0(b0: byte): Digit {
    b0 as int / 4
  }

  function Digit1(b0: byte, b1: byte): Digit {
    b0 as int % 4 * 16 + b1 as int / 16
  }

  function Digit2(b1: byte, b2: byte): Digit {
    b1 as int % 16 * 4 + b2 as int / 64
  }

  function Digit3(b2: byte): Digit {
    b2 as int % 64
  }

  function Byte0(d0: Digit, d1: Digit): byte {
    (d0 * 4 + d1 / 16) as byte
  }

  function Byte1(d1: Digit, d2: Digit): byte {
    (d1 % 16 * 16 + d2 / 4) as byte
  }

  function Byte2(d2: Digit, d3: Digit): byte {
    (d2 % 4 * 64 + d3) as byte
  }

  function Encode(b: seq<byte>): string {
    if |b| == 0 then ""
    else if |b| == 1 then [CharOf(Digit0(b[0])), CharOf(Digit1(b[0], 0)), PAD, PAD]
    else if |b| == 2 then [CharOf(Digit0(b[0])), CharOf(Digit1(b[0], b[1])), CharOf(Digit2(b[1], 0)), PAD]
    else
      [CharOf(Digit0(b[0])), CharOf(Digit1(b[0], b[1])), CharOf(Digit2(b[1], b[2])), CharOf(Digit3(b[2]))]
      + Encode(b[3..])
  }

  /** The decoder ignores line breaks wherever they stand. */
  function StripBreaks(s: string): string {
    if |s| == 0 then ""
    else if s[0] == '\r' || s[0] == '\n' then StripBreaks(s[1..])
    else [s[0]] + StripBreaks(s[1..])
  }

  /** The last four characters, which may be padded. */
  function DecodeLast(s: string): Option<seq<byte>>
    requires |s| == 4
  {
    match (DigitOf(s[0]), DigitOf(s[1]), DigitOf(s[2]), DigitOf(s[3]))
    case (Some(d0), Some(d1), Some(d2), Some(d3)) => Some([Byte0(d0, d1), Byte1(d1, d2), Byte2(d2, d3)])
    case (Some(d0), Some(d1), Some(d2), None) => if s[3] == PAD then Some([Byte0(d0, d1), Byte1(d1, d2)]) else None
    case (Some(d0), Some(d1), None, None) => if s[2] == PAD && s[3] == PAD then Some([Byte0(d0, d1)]) else None
    case _ => None
  }

  /** Four characters at a time; only the last four may be padded. */
  function DecodeQuanta(s: string): Option<seq<byte>> {
    if |s| == 0 then Some([])
    else if |s| < 4 then None
    else if |s| == 4 then DecodeLast(s)
    else
      match (DigitOf(s[0]), DigitOf(s[1]), DigitOf(s[2]), DigitOf(s[3]), DecodeQuanta(s[4..]))
      case (Some(d0), Some(d1), Some(d2), Some(d3), Some(rest)) =>
        Some([Byte0(d0, d1), Byte1(d1, d2), Byte2(d2, d3)] + rest)
      case _ => None
  }

  function Decode(s: string): Option<seq<byte>> {
    DecodeQuanta(StripBreaks(s))
  }

  lemma DigitOfCharOf(d: Digit)
    ensures DigitOf(CharOf(d)) == Some(d) && CharOf(d) != PAD && CharOf(d) != '\r' && CharOf(d) != '\n'
  {
  }

  /** The bytes come back from their digits. */
  lemma SixBits(b0: byte, b1: byte, b2: byte)
    ensures Byte0(Digit0(b0), Digit1(b0, b1)) == b0
    ensures Byte1(Digit1(b0, b1), Digit2(b1, b2)) == b1
    ensures Byte2(Digit2(b1, b2), Digit3(b2)) == b2
  {
  }

  lemma {:induction false} EncodedHasNoBreaks(b: seq<byte>)
    ensures forall k :: 0 <= k < |Encode(b)| ==> Encode(b)[k] != '\r' && Encode(b)[k] != '\n'
  {
    if |b| > 2 {
      EncodedHasNoBreaks(b[3..]);
    }
  }

  lemma {:induction false} NothingToStrip(s: string)
    requires forall k :: 0 <= k < |s| ==> s[k] != '\r' && s[k] != '\n'
    ensures StripBreaks(s) == s
  {
    if |s| > 0 {
      NothingToStrip(s[1..]);
    }
  }

  /** What four digits decode to, before the rest and at the end. */
  lemma FourDigits(s: string, d0: Digit, d1: Digit, d2: Digit, d3: Digit, rest: string, decoded: seq<byte>)
    requires s == [CharOf(d0), CharOf(d1), CharOf(d2), CharOf(d3)] + rest
    requires DecodeQuanta(rest) == Some(decoded)
    ensures DecodeQuanta(s) == Some([Byte0(d0, d1), Byte1(d1, d2), Byte2(d2, d3)] + decoded)
  {
    DigitOfCharOf(d0);
    DigitOfCharOf(d1);
    DigitOfCharOf(d2);
    DigitOfCharOf(d3);
    assert s[4..] == rest;
    if |rest| == 0 {
      assert DecodeQuanta(s) == DecodeLast(s);
      assert [Byte0(d0, d1), Byte1(d1, d2), Byte2(d2, d3)] + decoded == [Byte0(d0, d1), Byte1(d1, d2), Byte2(d2, d3)];
    }
  }

  lemma ThreeDigits(d0: Digit, d1: Digit, d2: Digit)
    ensures DecodeQuanta([CharOf(d0), CharOf(d1), CharOf(d2), PAD]) == Some([Byte0(d0, d1), Byte1(d1, d2)])
  {
    DigitOfCharOf(d0);
    DigitOfCharOf(d1);
    DigitOfCharOf(d2);
    var s := [CharOf(d0), CharOf(d1), CharOf(d2), PAD];
    assert DecodeQuanta(s) == DecodeLast(s);
  }

  lemma TwoDigits(d0: Digit, d1: Digit)
    ensures DecodeQuanta([CharOf(d0), CharOf(d1), PAD, PAD]) == Some([Byte0(d0, d1)])
  {
    DigitOfCharOf(d0);
    DigitOfCharOf(d1);
    var s := [CharOf(d0), CharOf(d1), PAD, PAD];
    assert DecodeQuanta(s) == DecodeLast(s);
  }

  lemma EncodeOne(b: seq<byte>) returns (d0: Digit, d1: Digit)
    requires |b| == 1
    ensures Encode(b) == [CharOf(d0), CharOf(d1), PAD, PAD]
    ensures Byte0(d0, d1) == b[0]
  {
    d0, d1 := Digit0(b[0]), Digit1(b[0], 0);
    SixBits(b[0], 0, 0);
  }

  lemma EncodeTwo(b: seq<byte>) returns (d0: Digit, d1: Digit, d2: Digit)
    requires |b| == 2
    ensures Encode(b) == [CharOf(d0), CharOf(d1), CharOf(d2), PAD]
    ensures Byte0(d0, d1) == b[0] && Byte1(d1, d2) == b[1]
  {
    d0, d1, d2 := Digit0(b[0]), Digit1(b[0], b[1]), Digit2(b[1], 0);
    SixBits(b[0], b[1], 0);
  }

  lemma EncodeThree(b: seq<byte>) returns (d0: Digit, d1: Digit, d2: Digit, d3: Digit)
    requires |b| >= 3
    ensures Encode(b) == [CharOf(d0), CharOf(d1), CharOf(d2), CharOf(d3)] + Encode(b[3..])
    ensures Byte0(d0, d1) == b[0] && Byte1(d1, d2) == b[1] && Byte2(d2, d3) == b[2]
  {
    d0, d1, d2, d3 := Digit0(b[0]), Digit1(b[0], b[1]), Digit2(b[1], b[2]), Digit3(b[2]);
    SixBits(b[0], b[1], b[2]);
  }

  lemma {:induction false} QuantaRoundTrip(b: seq<byte>)
    ensures DecodeQuanta(Encode(b)) == Some(b)
  {
    if |b| == 1 {
      var d0, d1 := EncodeOne(b);
      TwoDigits(d0, d1);
      assert b == [b[0]];
    } else if |b| == 2 {
      var d0, d1, d2 := EncodeTwo(b);
      ThreeDigits(d0, d1, d2);
      assert b == [b[0], b[1]];
    } else if |b| > 2 {
      QuantaRoundTrip(b[3..]);
      var d0, d1, d2, d3 := EncodeThree(b);
      FourDigits(Encode(b), d0, d1, d2, d3, Encode(b[3..]), b[3..]);
      assert b == [b[0], b[1], b[2]] + b[3..];
    }
  }

  /** Decoding undoes encoding, for every list of bytes. */
  lemma DecodeUndoesEncode(b: seq<byte>)
    ensures Decode(Encode(b)) == Some(b)
  {
    EncodedHasNoBreaks(b);
    NothingToStrip(Encode(b));
    QuantaRoundTrip(b);
  }

  lemma {:induction false} StripConcat(a: string, b: string)
    ensures StripBreaks(a + b) == StripBreaks(a) + StripBreaks(b)
  {
    if |a| == 0 {
      assert a + b == b;
    } else {
      StripConcat(a[1..], b);
      assert (a + b)[1..] == a[1..] + b && (a + b)[0] == a[0];
      assert StripBreaks(a + b) ==
             (if a[0] == '\r' || a[0] == '\n' then StripBreaks(a[1..] + b) else [a[0]] + StripBreaks(a[1..] + b));
    }
  }

  lemma {:induction false} OnlyBreaks(s: string)
    requires forall k :: 0 <= k < |s| ==> s[k] == '\r' || s[k] == '\n'
    ensures StripBreaks(s) == ""
  {
    if |s| > 0 {
      OnlyBreaks(s[1..]);
    }
  }

  /** Line breaks inserted anywhere into a text change nothing. */
  lemma BreaksAreIgnored(a: string, breaks: string, c: string)
    requires forall k :: 0 <= k < |breaks| ==> breaks[k] as int == 13 || breaks[k] as int == 10
    ensures Decode(a + breaks + c) == Decode(a + c)
  {
    OnlyBreaks(breaks);
    StripConcat(a + breaks, c);
    StripConcat(a, breaks);
    StripConcat(a, c);
    assert StripBreaks(a) + "" == StripBreaks(a);
  }

  // ---- what is accepted, and as what ----

  /** The number of a character in "A-Za-z0-9+/", by code point; negative for any other. */
  function Value(c: char): int {
    var n := c as int;
    if 65 <= n <= 90 then n - 65
    else if 97 <= n <= 122 then n - 71
    else if 48 <= n <= 57 then n + 4
    else if n == 43 then 62
    else if n == 47 then 63
    else -1
  }

  /**
   `t` is a base64 text of `b`: four digits make three bytes, at the end "==" and "=" stand for one and
   two missing digits, whose bits that are left over do not matter.
   */
  predicate IsTextOf(t: string, b: seq<byte>)
    decreases |b|
  {
    if |b| == 0 then t == ""
    else if |t| < 4 then false
    else
      var v0, v1, v2, v3 := Value(t[0]), Value(t[1]), Value(t[2]), Value(t[3]);
      v0 >= 0 && v1 >= 0
      && if |b| == 1 then t[2..] == "==" && (v0 * 64 + v1) / 16 == b[0] as int
         else if |b| == 2 then
           v2 >= 0 && t[3..] == "=" && (v0 * 4096 + v1 * 64 + v2) / 4 == b[0] as int * 256 + b[1] as int
         else
           && v2 >= 0 && v3 >= 0
           && v0 * 262144 + v1 * 4096 + v2 * 64 + v3 == b[0] as int * 65536 + b[1] as int * 256 + b[2] as int
           && IsTextOf(t[4..], b[3..])
  }

  lemma DigitIsValue(c: char)
    ensures DigitOf(c) == if Value(c) >= 0 then Some(Value(c)) else None
    ensures Value(c) < 64 && Value(PAD) < 0
  {
  }

  /** Three bytes are determined by the number they make, and are the ones the digits are cut into. */
  lemma BytesOfDigits(d0: Digit, d1: Digit, d2: Digit, d3: Digit, b0: byte, b1: byte, b2: byte)
    ensures Byte0(d0, d1) == b0 && Byte1(d1, d2) == b1 && Byte2(d2, d3) == b2
            <==> d0 * 262144 + d1 * 4096 + d2 * 64 + d3 == b0 as int * 65536 + b1 as int * 256 + b2 as int
    ensures Byte0(d0, d1) == b0 <==> (d0 * 64 + d1) / 16 == b0 as int
    ensures Byte0(d0, d1) == b0 && Byte1(d1, d2) == b1
            <==> (d0 * 4096 + d1 * 64 + d2) / 4 == b0 as int * 256 + b1 as int
  {
  }

  /** The four characters are digits, and make these three bytes. */
  predicate IsGroup(s: string, b0: byte, b1: byte, b2: byte)
    requires |s| >= 4
  {
    match (DigitOf(s[0]), DigitOf(s[1]), DigitOf(s[2]), DigitOf(s[3]))
    case (Some(d0), Some(d1), Some(d2), Some(d3)) => Byte0(d0, d1) == b0 && Byte1(d1, d2) == b1 && Byte2(d2, d3) == b2
    case _ => false
  }

  lemma GroupExactly(s: string, b0: byte, b1: byte, b2: byte)
    requires |s| >= 4
    ensures IsGroup(s, b0, b1, b2) <==>
              var v0, v1, v2, v3 := Value(s[0]), Value(s[1]), Value(s[2]), Value(s[3]);
              && v0 >= 0 && v1 >= 0 && v2 >= 0 && v3 >= 0
              && v0 * 262144 + v1 * 4096 + v2 * 64 + v3 == b0 as int * 65536 + b1 as int * 256 + b2 as int
  {
    DigitIsValue(s[0]);
    DigitIsValue(s[1]);
    DigitIsValue(s[2]);
    DigitIsValue(s[3]);
    match (DigitOf(s[0]), DigitOf(s[1]), DigitOf(s[2]), DigitOf(s[3])) {
      case (Some(d0), Some(d1), Some(d2), Some(d3)) => BytesOfDigits(d0, d1, d2, d3, b0, b1, b2);
      case _ =>
    }
  }

  lemma SeqIs<T>(s: seq<T>, a: T, b: T, c: T)
    ensures s == [a] <==> |s| == 1 && s[0] == a
    ensures s == [a, b] <==> |s| == 2 && s[0] == a && s[1] == b
    ensures s == [a, b, c] <==> |s| == 3 && s[0] == a && s[1] == b && s[2] == c
  {
  }

  /** Four characters without padding are three bytes. */
  lemma LastFull(s: string, b: seq<byte>)
    requires |s| == 4 && |b| == 3
    ensures DecodeLast(s) == Some(b) <==> IsTextOf(s, b)
  {
    GroupExactly(s, b[0], b[1], b[2]);
    assert s[4..] == "" && b[3..] == [];
    SeqIs(b, b[0], b[1], b[2]);
    assert DecodeLast(s) == Some(b) <==> IsGroup(s, b[0], b[1], b[2]);
  }

  lemma LastPadded(s: string, b: seq<byte>)
    requires |s| == 4 && 1 <= |b| <= 2
    ensures DecodeLast(s) == Some(b) <==> IsTextOf(s, b)
  {
    DigitIsValue(s[0]);
    DigitIsValue(s[1]);
    DigitIsValue(s[2]);
    DigitIsValue(s[3]);
    SeqIs(s[2..], PAD, PAD, PAD);
    SeqIs(s[3..], PAD, PAD, PAD);
    SeqIs(b, b[0], if |b| > 1 then b[1] else 0, 0);
    if DigitOf(s[0]).Some? && DigitOf(s[1]).Some? {
      var d2 := if DigitOf(s[2]).Some? then DigitOf(s[2]).value else 0;
      BytesOfDigits(DigitOf(s[0]).value, DigitOf(s[1]).value, d2, 0, b[0], if |b| > 1 then b[1] else 0, 0);
    }
  }

  lemma LastExactly(s: string, b: seq<byte>)
    requires |s| == 4
    ensures DecodeLast(s) == Some(b) <==> IsTextOf(s, b)
  {
    if |b| == 3 {
      LastFull(s, b);
    } else if 1 <= |b| <= 2 {
      LastPadded(s, b);
    }
  }

  lemma QuantaStep(s: string, b: seq<byte>)
    requires |s| > 4
    ensures DecodeQuanta(s) == Some(b) <==>
              |b| >= 3 && IsGroup(s, b[0], b[1], b[2]) && DecodeQuanta(s[4..]) == Some(b[3..])
  {
    if |b| >= 3 {
      assert b == [b[0], b[1], b[2]] + b[3..];
    }
    match (DigitOf(s[0]), DigitOf(s[1]), DigitOf(s[2]), DigitOf(s[3]), DecodeQuanta(s[4..])) {
      case (Some(d0), Some(d1), Some(d2), Some(d3), Some(rest)) =>
        var decoded := [Byte0(d0, d1), Byte1(d1, d2), Byte2(d2, d3)] + rest;
        assert decoded[3..] == rest && decoded[0] == Byte0(d0, d1);
        assert decoded[1] == Byte1(d1, d2) && decoded[2] == Byte2(d2, d3);
      case _ =>
    }
  }

  lemma {:induction false} QuantaExactly(s: string, b: seq<byte>)
    ensures DecodeQuanta(s) == Some(b) <==> IsTextOf(s, b)
    decreases |s|
  {
    if |s| == 4 {
      LastExactly(s, b);
    } else if |s| > 4 {
      QuantaStep(s, b);
      if |b| >= 3 {
        GroupExactly(s, b[0], b[1], b[2]);
        QuantaExactly(s[4..], b[3..]);
      }
    }
  }

  /** A text decodes to `b` exactly if, its line breaks taken out, it is a base64 text of `b`. */
  lemma DecodesExactly(s: string, b: seq<byte>)
    ensures Decode(s) == Some(b) <==> IsTextOf(StripBreaks(s), b)
  {
    QuantaExactly(StripBreaks(s), b);
  }
}
