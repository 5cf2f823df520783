/** Share strings for the network key and the anchor seed, and the endorsement message (network_key.go, anchor.go). */
module KeyCodecs {
  import opened Wrappers
  import opened Bytes
  import opened GoText

  const KEY_SIZE: nat := 32

  datatype Error = WrongSize(got: nat) | InvalidHex | MalformedQuery | MissingK

  function NetworkPrefix(): seq<byte> {
    Ascii("bramble://net/v1?")
  }

  function AnchorPrefix(): seq<byte> {
    Ascii("bramble://anchor/v1?sk=")
  }

  function DecodeHexLen(s: seq<byte>, want: nat): Result<seq<byte>, Error> {
    match HexDecode(TrimSpace(s))
    case None => Failure(InvalidHex)
    case Some(b) => if |b| != want then Failure(WrongSize(|b|)) else Success(b)
  }

  function EncodeNetworkKeyShare(key: seq<byte>): Result<seq<byte>, Error> {
    if |key| != KEY_SIZE then Failure(WrongSize(|key|))
    else Success(NetworkPrefix() + EncodePair(Ascii("k"), HexEncode(key)))
  }

  function ParseNetworkKeyShare(s: seq<byte>): Result<seq<byte>, Error> {
    var t := TrimSpace(s);
    if NetworkPrefix() <= t then
      match ParseQuery(t[|NetworkPrefix()|..])
      case None => Failure(MalformedQuery)
      case Some(pairs) =>
        var k := Get(pairs, Ascii("k"));
        if |k| == 0 then Failure(MissingK) else DecodeHexLen(k, KEY_SIZE)
    else DecodeHexLen(t, KEY_SIZE)
  }

  function EncodeAnchorBackup(seed: seq<byte>): Result<seq<byte>, Error> {
    if |seed| != KEY_SIZE then Failure(WrongSize(|seed|)) else Success(AnchorPrefix() + HexEncode(seed))
  }

  function ParseAnchorBackup(s: seq<byte>): Result<seq<byte>, Error> {
    var t := TrimSpace(s);
    DecodeHexLen(if AnchorPrefix() <= t then t[|AnchorPrefix()|..] else t, KEY_SIZE)
  }

  type Uint64 = v: int | 0 <= v < 0x1_0000_0000_0000_0000

  /** The last n bytes of v, most significant first. */
  function BigEndian(v: nat, n: nat): (r: seq<byte>)
    ensures |r| == n
  {
    if n == 0 then [] else BigEndian(v / 256, n - 1) + [(v % 256) as byte]
  }

  /** The domain separator, the node's key, and the expiry in eight big-endian bytes. */
  function EndorsementMessage(pub: seq<byte>, notAfter: Uint64): seq<byte> {
    Ascii("bramble-endorse-v1") + pub + BigEndian(notAfter, 8)
  }

  function NotAfterHex(notAfter: Uint64): seq<byte> {
    HexEncode(BigEndian(notAfter, 8))
  }

  const CONTEXT_SIZE: nat := 18

  /** The number that big-endian bytes stand for. */
  function ValueOf(b: seq<byte>): nat {
    if |b| == 0 then 0 else ValueOf(b[..|b| - 1]) * 256 + b[|b| - 1] as int
  }

  /** The fields a verifier reads from a message, by their places in it. */
  predicate Reads(msg: seq<byte>, pub: seq<byte>, notAfter: Uint64) {
    && |msg| == CONTEXT_SIZE + |pub| + 8
    && msg[..CONTEXT_SIZE] == Ascii("bramble-endorse-v1")
    && msg[CONTEXT_SIZE..CONTEXT_SIZE + |pub|] == pub
    && ValueOf(msg[CONTEXT_SIZE + |pub|..]) == notAfter
  }

  function Pow256(n: nat): nat {
    if n == 0 then 1 else 256 * Pow256(n - 1)
  }

  lemma {:induction false} BigEndianValue(v: nat, n: nat)
    requires v < Pow256(n)
    ensures ValueOf(BigEndian(v, n)) == v
  {
    if n > 0 {
      BigEndianValue(v / 256, n - 1);
      var b := BigEndian(v, n);
      assert b[..|b| - 1] == BigEndian(v / 256, n - 1);
    }
  }

  lemma Uint64Fits(v: Uint64)
    ensures v < Pow256(8)
  {
    assert Pow256(4) == 0x1_0000_0000;
    assert Pow256(8) == 256 * (256 * (256 * (256 * Pow256(4))));
  }

  /** EndorsementMessage as the code builds it, appending to a buffer: every field can be read back. */
  method BuildEndorsementMessage(pub: seq<byte>, notAfter: Uint64) returns (msg: seq<byte>)
    ensures Reads(msg, pub, notAfter)
  {
    msg := Ascii("bramble-endorse-v1");
    msg := msg + pub;
    var na := BigEndian(notAfter, 8);
    msg := msg + na;
    Uint64Fits(notAfter);
    BigEndianValue(notAfter, 8);
    assert msg[CONTEXT_SIZE..CONTEXT_SIZE + |pub|] == pub && msg[CONTEXT_SIZE + |pub|..] == na;
  }
}

module KeyCodecTheorems {
  import opened Wrappers
  import opened Bytes
  import opened GoText
  import opened GoTextTheorems
  import opened KeyCodecs

  // ---- share strings ----

  lemma HexLenRoundTrip(key: seq<byte>)
    requires |key| == KEY_SIZE
    ensures DecodeHexLen(HexEncode(key), KEY_SIZE) == Success(key)
  {
    HexRoundTrip(key);
    HexIsSolid(key);
    SolidEndsStay(HexEncode(key));
  }

  /** A prefix of letters, digits and punctuation survives trimming and is found. */
  lemma PrefixSurvives(prefix: seq<byte>, s: seq<byte>)
    requires |prefix| > 0 && prefix <= s && forall k :: 0 <= k < |prefix| ==> IsSolid(prefix[k])
    ensures prefix <= TrimSpace(s)
  {
    assert forall k :: 0 <= k < |prefix| ==> s[k] == prefix[k];
    SolidPrefixStays(s, |prefix|);
    assert s[..|prefix|] == prefix;
  }

  lemma AsciiIsSolid(s: string)
    requires forall k :: 0 <= k < |s| ==> ' ' < s[k] < '\U{7F}'
    ensures forall k :: 0 <= k < |s| ==> IsSolid(Ascii(s)[k])
  {
  }

  lemma PrefixesAreSolid()
    ensures forall k :: 0 <= k < |NetworkPrefix()| ==> IsSolid(NetworkPrefix()[k])
    ensures forall k :: 0 <= k < |AnchorPrefix()| ==> IsSolid(AnchorPrefix()[k])
    ensures |NetworkPrefix()| == 17 && |AnchorPrefix()| == 23
    ensures NetworkPrefix()[10] != AnchorPrefix()[10]
    ensures NetworkPrefix()[1] == AnchorPrefix()[1] == 114
  {
    var net, anchor := "bramble://net/v1?", "bramble://anchor/v1?sk=";
    assert net[1] == 'r' && anchor[1] == 'r' && net[10] == 'n' && anchor[10] == 'a';
    AsciiIsSolid(net);
    AsciiIsSolid(anchor);
  }

  /** Every 32-byte network key comes back from its share string. */
  lemma NetworkKeyRoundTrip(key: seq<byte>)
    requires |key| == KEY_SIZE
    ensures EncodeNetworkKeyShare(key).Success?
    ensures ParseNetworkKeyShare(EncodeNetworkKeyShare(key).value) == Success(key)
  {
    var hex, query := HexEncode(key), EncodePair(Ascii("k"), HexEncode(key));
    var s := NetworkPrefix() + query;
    PrefixesAreSolid();
    HexRoundTrip(key);
    HexIsSolid(key);
    EscapedHexEndsSolid(hex);
    SolidEndsStay(s);
    assert s[|NetworkPrefix()|..] == query;
    PairRoundTrip(Ascii("k"), hex);
    HexLenRoundTrip(key);
  }

  /** Hex digits need no escaping, so the share ends in one. */
  lemma EscapedHexEndsSolid(hex: seq<byte>)
    requires |hex| > 0 && forall k :: 0 <= k < |hex| ==> IsSolid(hex[k]) && IsUnreserved(hex[k])
    ensures QueryEscape(hex) == hex
    ensures var s := EncodePair(Ascii("k"), hex); |s| > 0 && IsSolid(s[|s| - 1])
  {
    UnreservedStays(hex);
    var s := EncodePair(Ascii("k"), hex);
    assert s[|s| - 1] == hex[|hex| - 1];
  }

  lemma {:induction false} UnreservedStays(s: seq<byte>)
    requires forall k :: 0 <= k < |s| ==> IsUnreserved(s[k])
    ensures QueryEscape(s) == s
  {
    if |s| > 0 {
      UnreservedStays(s[1..]);
      assert s == [s[0]] + s[1..];
    }
  }

  /** Every 32-byte anchor seed comes back from its backup string. */
  lemma AnchorBackupRoundTrip(seed: seq<byte>)
    requires |seed| == KEY_SIZE
    ensures EncodeAnchorBackup(seed).Success?
    ensures ParseAnchorBackup(EncodeAnchorBackup(seed).value) == Success(seed)
  {
    var hex := HexEncode(seed);
    var s := AnchorPrefix() + hex;
    PrefixesAreSolid();
    HexRoundTrip(seed);
    HexIsSolid(seed);
    SolidEndsStay(s);
    assert s[|AnchorPrefix()|..] == hex;
    HexLenRoundTrip(seed);
  }

  lemma DecodedHexHasLength(s: seq<byte>, want: nat)
    ensures DecodeHexLen(s, want).Success? ==> |DecodeHexLen(s, want).value| == want
  {
  }

  lemma ParsedKeysHaveSize(s: seq<byte>)
    ensures ParseNetworkKeyShare(s).Success? ==> |ParseNetworkKeyShare(s).value| == KEY_SIZE
    ensures ParseAnchorBackup(s).Success? ==> |ParseAnchorBackup(s).value| == KEY_SIZE
  {
    var t := TrimSpace(s);
    DecodedHexHasLength(t, KEY_SIZE);
    if AnchorPrefix() <= t {
      DecodedHexHasLength(t[|AnchorPrefix()|..], KEY_SIZE);
    }
    if NetworkPrefix() <= t && ParseQuery(t[|NetworkPrefix()|..]).Some? {
      DecodedHexHasLength(Get(ParseQuery(t[|NetworkPrefix()|..]).value, Ascii("k")), KEY_SIZE);
    }
  }

  /** Whatever text a parser accepts, the key it yields survives being written out and read again. */
  lemma ParsedKeysReencode(s: seq<byte>)
    ensures ParseNetworkKeyShare(s).Success? ==>
              var share := EncodeNetworkKeyShare(ParseNetworkKeyShare(s).value);
              share.Success? && ParseNetworkKeyShare(share.value) == ParseNetworkKeyShare(s)
    ensures ParseAnchorBackup(s).Success? ==>
              var backup := EncodeAnchorBackup(ParseAnchorBackup(s).value);
              backup.Success? && ParseAnchorBackup(backup.value) == ParseAnchorBackup(s)
  {
    ParsedKeysHaveSize(s);
    var network, anchor := ParseNetworkKeyShare(s), ParseAnchorBackup(s);
    if network.Success? {
      NetworkKeyRoundTrip(network.value);
    }
    if anchor.Success? {
      AnchorBackupRoundTrip(anchor.value);
    }
  }

  /** Bare hex is accepted by both parsers. */
  lemma BareHexParses(key: seq<byte>)
    requires |key| == KEY_SIZE
    ensures ParseNetworkKeyShare(HexEncode(key)) == Success(key)
    ensures ParseAnchorBackup(HexEncode(key)) == Success(key)
  {
    var hex := HexEncode(key);
    HexRoundTrip(key);
    HexIsSolid(key);
    SolidEndsStay(hex);
    HexLenRoundTrip(key);
    PrefixesAreSolid();
    HexHasNoPrefix(hex, NetworkPrefix());
    HexHasNoPrefix(hex, AnchorPrefix());
  }

  /** Text whose second character is the "r" of "bramble" is not hex. */
  lemma NotHex(s: seq<byte>)
    requires |s| > 1 && s[1] == 114
    ensures HexDecode(s) == None
  {
  }

  lemma HexHasNoPrefix(hex: seq<byte>, prefix: seq<byte>)
    requires HexDecode(hex).Some? && |prefix| > 1 && prefix[1] == 114
    ensures !(prefix <= hex)
  {
    if prefix <= hex {
      NotHex(hex);
    }
  }

  /** Each parser rejects every string that opens with the other's prefix, as not being hex. */
  lemma ForeignPrefixRejected(rest: seq<byte>)
    ensures ParseAnchorBackup(NetworkPrefix() + rest) == Failure(InvalidHex)
    ensures ParseNetworkKeyShare(AnchorPrefix() + rest) == Failure(InvalidHex)
  {
    PrefixesAreSolid();
    Unparsable(NetworkPrefix(), AnchorPrefix(), rest);
    Unparsable(AnchorPrefix(), NetworkPrefix(), rest);
  }

  lemma Unparsable(prefix: seq<byte>, other: seq<byte>, rest: seq<byte>)
    requires |prefix| > 10 && |other| > 10 && prefix[10] != other[10] && prefix[1] == 114
    requires forall k :: 0 <= k < |prefix| ==> IsSolid(prefix[k])
    ensures var t := TrimSpace(prefix + rest);
            !(other <= t) && DecodeHexLen(t, KEY_SIZE) == Failure(InvalidHex)
  {
    var t := TrimSpace(prefix + rest);
    PrefixSurvives(prefix, prefix + rest);
    assert t[10] == prefix[10];
    PrefixSurvives(prefix, t);
    NotHex(TrimSpace(t));
  }

  // ---- what is written, and what is accepted ----

  /** How hex of a wanted length is read: surrounding white space and the case of the digits do not matter. */
  lemma HexLenExactly(s: seq<byte>, want: nat)
    ensures forall b :: DecodeHexLen(s, want) == Success(b) <==> |b| == want && IsHexOf(TrimSpace(s), b)
    ensures forall n :: DecodeHexLen(s, want) == Failure(WrongSize(n)) <==>
              n != want && exists b :: |b| == n && IsHexOf(TrimSpace(s), b)
    ensures DecodeHexLen(s, want) == Failure(InvalidHex) <==> forall b :: !IsHexOf(TrimSpace(s), b)
  {
    var t := TrimSpace(s);
    forall b
      ensures HexDecode(t) == Some(b) <==> IsHexOf(t, b)
    {
      HexDecodeExactly(t, b);
    }
    if HexDecode(t).Some? {
      assert IsHexOf(t, HexDecode(t).value);
    }
  }

  /** The share of a key: its prefix and 64 lower-case hex digits; a key of another size is refused. */
  lemma NetworkShareExactly(key: seq<byte>)
    ensures |key| != 32 ==> EncodeNetworkKeyShare(key) == Failure(WrongSize(|key|))
    ensures |key| == 32 ==>
              && EncodeNetworkKeyShare(key).Success?
              && var share := EncodeNetworkKeyShare(key).value;
                 && Ascii("bramble://net/v1?k=") <= share
                 && IsHexOf(share[19..], key) && IsLowerHex(share[19..])
  {
    if |key| == 32 {
      var hex := HexEncode(key);
      HexEncodeExactly(key, hex);
      HexIsSolid(key);
      UnreservedStays(hex);
      LetterStays();
      var share := EncodeNetworkKeyShare(key).value;
      assert share == Ascii("bramble://net/v1?") + Ascii("k=") + hex;
      assert Ascii("bramble://net/v1?") + Ascii("k=") == Ascii("bramble://net/v1?k=");
      assert share[19..] == hex;
    }
  }

  lemma LetterStays()
    ensures QueryEscape(Ascii("k")) + [61] == Ascii("k=")
  {
    UnreservedStays(Ascii("k"));
  }

  /** The backup of a seed, likewise. */
  lemma AnchorBackupExactly(seed: seq<byte>)
    ensures |seed| != 32 ==> EncodeAnchorBackup(seed) == Failure(WrongSize(|seed|))
    ensures |seed| == 32 ==>
              && EncodeAnchorBackup(seed).Success?
              && var backup := EncodeAnchorBackup(seed).value;
                 && Ascii("bramble://anchor/v1?sk=") <= backup
                 && IsHexOf(backup[23..], seed) && IsLowerHex(backup[23..])
  {
    if |seed| == 32 {
      HexEncodeExactly(seed, HexEncode(seed));
      assert EncodeAnchorBackup(seed).value[23..] == HexEncode(seed);
    }
  }

  /**
   A share with any parameters, in any order, white space around it: the first one named k counts, if
   it has a value.
   */
  lemma ShareWithParameters(lead: seq<seq<byte>>, pairs: seq<Pair>, tail: seq<seq<byte>>, i: nat)
    requires AllWhite(lead) && AllWhite(tail)
    requires i <= |pairs| && (forall j :: 0 <= j < i ==> pairs[j].key != Ascii("k"))
    requires i < |pairs| ==> pairs[i].key == Ascii("k")
    ensures ParseNetworkKeyShare(Join(lead) + (Ascii("bramble://net/v1?") + EncodePairs(pairs)) + Join(tail)) ==
            if i == |pairs| || pairs[i].value == [] then Failure(MissingK) else DecodeHexLen(pairs[i].value, 32)
  {
    var s := Ascii("bramble://net/v1?") + EncodePairs(pairs);
    PrefixesAreSolid();
    EncodedIsSolid(pairs);
    WhiteAround(lead, s, tail);
    assert s[17..] == EncodePairs(pairs);
    PairsRoundTrip(pairs);
    GetExactly(pairs, Ascii("k"), i);
  }

  /** A backup and bare hex are read with white space around them, too. */
  lemma BackupWithWhiteSpace(lead: seq<seq<byte>>, seed: seq<byte>, tail: seq<seq<byte>>)
    requires AllWhite(lead) && AllWhite(tail) && |seed| == 32
    ensures ParseAnchorBackup(Join(lead) + (Ascii("bramble://anchor/v1?sk=") + HexEncode(seed)) + Join(tail))
            == Success(seed)
    ensures ParseAnchorBackup(Join(lead) + HexEncode(seed) + Join(tail)) == Success(seed)
    ensures ParseNetworkKeyShare(Join(lead) + HexEncode(seed) + Join(tail)) == Success(seed)
  {
    var hex := HexEncode(seed);
    var s := Ascii("bramble://anchor/v1?sk=") + hex;
    PrefixesAreSolid();
    HexRoundTrip(seed);
    HexIsSolid(seed);
    WhiteAround(lead, s, tail);
    WhiteAround(lead, hex, tail);
    SolidEndsStay(s);
    SolidEndsStay(hex);
    AnchorBackupRoundTrip(seed);
    BareHexParses(seed);
  }

  /** A semicolon anywhere in the parameters makes the query malformed. */
  lemma SemicolonIsMalformed(query: seq<byte>)
    requires 59 in query
    ensures ParseNetworkKeyShare(Ascii("bramble://net/v1?") + query) == Failure(MalformedQuery)
  {
    var s := Ascii("bramble://net/v1?") + query;
    var k :| 0 <= k < |query| && query[k] == 59;
    PrefixesAreSolid();
    PrefixSurvives(Ascii("bramble://net/v1?"), s);
    SolidStays(s, 17 + k);
    assert TrimSpace(s)[17..][k] == 59;
    SemicolonSpoils(TrimSpace(s)[17..]);
  }

  /** A solid character of a text that begins with one survives trimming, in its place. */
  lemma SolidStays(s: seq<byte>, k: nat)
    requires k < |s| && IsSolid(s[0]) && IsSolid(s[k])
    ensures k < |TrimSpace(s)| && TrimSpace(s)[k] == s[k]
  {
    RightTrimKeeps(s, k + 1);
    assert TrimLeft(s) == s;
    assert TrimSpace(s)[..k + 1][k] == s[..k + 1][k];
  }

  // ---- the endorsement message ----

  /** Bytes of the same length that stand for the same number are the same. */
  lemma {:induction false} ValueDetermines(a: seq<byte>, b: seq<byte>)
    requires |a| == |b| && ValueOf(a) == ValueOf(b)
    ensures a == b
  {
    if |a| > 0 {
      var n := |a| - 1;
      ValueDetermines(a[..n], b[..n]);
      assert a == a[..n] + [a[n]] && b == b[..n] + [b[n]];
    }
  }

  /** The layout is exact: the message of a key and an expiry is the one from which they are read. */
  lemma MessageIsItsLayout(msg: seq<byte>, pub: seq<byte>, notAfter: Uint64)
    ensures msg == EndorsementMessage(pub, notAfter) <==> Reads(msg, pub, notAfter)
  {
    var na, m := BigEndian(notAfter, 8), EndorsementMessage(pub, notAfter);
    Uint64Fits(notAfter);
    BigEndianValue(notAfter, 8);
    assert m[..CONTEXT_SIZE] == Ascii("bramble-endorse-v1");
    assert m[CONTEXT_SIZE..CONTEXT_SIZE + |pub|] == pub && m[CONTEXT_SIZE + |pub|..] == na;
    if Reads(msg, pub, notAfter) {
      var tail := msg[CONTEXT_SIZE + |pub|..];
      ValueDetermines(tail, na);
      assert msg == msg[..CONTEXT_SIZE] + msg[CONTEXT_SIZE..CONTEXT_SIZE + |pub|] + tail;
    }
  }

  /** Two endorsement messages are equal only for the same key and the same expiry. */
  lemma EndorsementMessageInjective(pub1: seq<byte>, notAfter1: Uint64, pub2: seq<byte>, notAfter2: Uint64)
    ensures EndorsementMessage(pub1, notAfter1) == EndorsementMessage(pub2, notAfter2) <==>
              pub1 == pub2 && notAfter1 == notAfter2
    ensures |EndorsementMessage(pub1, notAfter1)| == 26 + |pub1|
  {
    MessageIsItsLayout(EndorsementMessage(pub1, notAfter1), pub1, notAfter1);
    MessageIsItsLayout(EndorsementMessage(pub2, notAfter2), pub2, notAfter2);
  }

  // ---- order ----

  /** `a` comes before `b` in dictionary order: at the first difference it is smaller. */
  ghost predicate LexLess(a: seq<byte>, b: seq<byte>)
    requires |a| == |b|
  {
    exists k: nat :: DiffersAt(a, b, k)
  }

  /** The first difference is at k. */
  predicate DiffersAt(a: seq<byte>, b: seq<byte>, k: nat)
    requires |a| == |b|
  {
    k < |a| && a[..k] == b[..k] && a[k] < b[k]
  }

  lemma DiffersAtSnoc(a: seq<byte>, b: seq<byte>, x: byte, y: byte, k: nat)
    requires |a| == |b|
    ensures DiffersAt(a + [x], b + [y], k) <==> DiffersAt(a, b, k) || (k == |a| && a == b && x < y)
  {
    if k <= |a| {
      assert (a + [x])[..k] == a[..k] && (b + [y])[..k] == b[..k];
      assert a[..|a|] == a && b[..|b|] == b;
    }
  }

  lemma LexSnoc(a: seq<byte>, b: seq<byte>, x: byte, y: byte)
    requires |a| == |b|
    ensures LexLess(a + [x], b + [y]) <==> LexLess(a, b) || (a == b && x < y)
  {
    forall k: nat
      ensures DiffersAt(a + [x], b + [y], k) <==> DiffersAt(a, b, k) || (k == |a| && a == b && x < y)
    {
      DiffersAtSnoc(a, b, x, y, k);
    }
    if a == b && x < y {
      assert DiffersAt(a + [x], b + [y], |a|);
    }
  }

  /** Big-endian bytes of the same length are in the order of the numbers. */
  lemma {:induction false} BigEndianOrder(v: nat, w: nat, n: nat)
    requires v < Pow256(n) && w < Pow256(n)
    ensures LexLess(BigEndian(v, n), BigEndian(w, n)) <==> v < w
    ensures BigEndian(v, n) == BigEndian(w, n) <==> v == w
  {
    BigEndianValue(v, n);
    BigEndianValue(w, n);
    if n > 0 {
      BigEndianOrder(v / 256, w / 256, n - 1);
      LexSnoc(BigEndian(v / 256, n - 1), BigEndian(w / 256, n - 1), (v % 256) as byte, (w % 256) as byte);
    }
  }

  lemma {:induction false} HexSnoc(a: seq<byte>, x: byte)
    ensures HexEncode(a + [x]) == HexEncode(a) + [HexDigit(x as int / 16)] + [HexDigit(x as int % 16)]
  {
    if |a| == 0 {
      var one: seq<byte> := [x];
      assert a + [x] == one && one[1..] == [];
    } else {
      HexSnoc(a[1..], x);
      assert (a + [x])[1..] == a[1..] + [x] && (a + [x])[0] == a[0];
    }
  }

  lemma HexDigitOrder(m: int, n: int)
    requires 0 <= m < 16 && 0 <= n < 16
    ensures HexDigit(m) < HexDigit(n) <==> m < n
    ensures HexDigit(m) == HexDigit(n) <==> m == n
  {
  }

  lemma HexLength(a: seq<byte>)
    ensures |HexEncode(a)| == 2 * |a|
  {
    HexRoundTrip(a);
  }

  /** Two digits in place of one byte keep the order of what they end. */
  lemma HexPairOrder(p: seq<byte>, q: seq<byte>, x: byte, y: byte)
    requires |p| == |q|
    ensures var hx, lx := HexDigit(x as int / 16), HexDigit(x as int % 16);
            var hy, ly := HexDigit(y as int / 16), HexDigit(y as int % 16);
            && (LexLess(p + [hx] + [lx], q + [hy] + [ly]) <==> LexLess(p, q) || (p == q && x < y))
            && (p + [hx] + [lx] == q + [hy] + [ly] <==> p == q && x == y)
  {
    var hx, lx := HexDigit(x as int / 16), HexDigit(x as int % 16);
    var hy, ly := HexDigit(y as int / 16), HexDigit(y as int % 16);
    HexDigitOrder(x as int / 16, y as int / 16);
    HexDigitOrder(x as int % 16, y as int % 16);
    LexSnoc(p, q, hx, hy);
    LexSnoc(p + [hx], q + [hy], lx, ly);
    SnocEqual(p, q, hx, hy);
    SnocEqual(p + [hx], q + [hy], lx, ly);
  }

  lemma SnocEqual(p: seq<byte>, q: seq<byte>, x: byte, y: byte)
    ensures p + [x] == q + [y] <==> p == q && x == y
  {
    if p + [x] == q + [y] {
      assert (p + [x])[..|p|] == p && (q + [y])[..|q|] == q;
      assert (p + [x])[|p|] == x && (q + [y])[|q|] == y;
    }
  }

  /** Hex keeps the dictionary order of byte strings of the same length. */
  lemma {:induction false} HexOrder(a: seq<byte>, b: seq<byte>)
    requires |a| == |b|
    ensures |HexEncode(a)| == |HexEncode(b)|
    ensures LexLess(HexEncode(a), HexEncode(b)) <==> LexLess(a, b)
    ensures HexEncode(a) == HexEncode(b) <==> a == b
  {
    HexLength(a);
    HexLength(b);
    if |a| > 0 {
      var n := |a| - 1;
      var p, q, x, y := a[..n], b[..n], a[n], b[n];
      assert a == p + [x] && b == q + [y];
      HexOrder(p, q);
      HexSnoc(p, x);
      HexSnoc(q, y);
      HexPairOrder(HexEncode(p), HexEncode(q), x, y);
      LexSnoc(p, q, x, y);
      SnocEqual(p, q, x, y);
    }
  }

  /** NotAfterHex is 16 characters, different for different times, and sorts as the times do. */
  lemma NotAfterHexOrder(v: Uint64, w: Uint64)
    ensures |NotAfterHex(v)| == |NotAfterHex(w)| == 16
    ensures NotAfterHex(v) == NotAfterHex(w) <==> v == w
    ensures LexLess(NotAfterHex(v), NotAfterHex(w)) <==> v < w
  {
    Uint64Fits(v);
    Uint64Fits(w);
    BigEndianOrder(v, w, 8);
    HexOrder(BigEndian(v, 8), BigEndian(w, 8));
    HexLength(BigEndian(v, 8));
    HexLength(BigEndian(w, 8));
  }
}
