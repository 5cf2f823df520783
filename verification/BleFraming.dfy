/** Newline framing over BLE: chunked writes, and lines reassembled from notifications (transport/ble.go). */
module BleFraming {
  import opened Bytes
  import Runs

  const CHUNK_SIZE: nat := 240
  const NEWLINE: byte := 10

  /** The capacity of the receive channel. */
  const RECV_CAPACITY: nat := 32

  function Frame(message: seq<byte>): seq<byte> {
    message + [NEWLINE]
  }

  /** The pieces a payload is written in. */
  function Chunks(payload: seq<byte>): seq<seq<byte>> {
    if |payload| == 0 then []
    else if |payload| <= CHUNK_SIZE then [payload]
    else [payload[..CHUNK_SIZE]] + Chunks(payload[CHUNK_SIZE..])
  }

  // ---- receiving ----

  /** A line offered to the receive channel, and how many were waiting in it. */
  datatype Offer = Offer(line: seq<byte>, queued: bool, waiting: nat)

  /** The receiving side: fields of the transport, and what was offered and taken so far. */
  datatype Receiver = Receiver(lineBuf: seq<byte>, recvCh: seq<seq<byte>>, offers: seq<Offer>, taken: seq<seq<byte>>)

  /** A byte of a notification, a Receive that takes a line, or a new link in the place of a lost one. */
  datatype Event = Byte(b: byte) | Take | Relink

  function OfferLine(r: Receiver): Receiver {
    var room := |r.recvCh| < RECV_CAPACITY;
    Receiver(
      [],
      if room then r.recvCh + [r.lineBuf] else r.recvCh,
      r.offers + [Offer(r.lineBuf, room, |r.recvCh|)],
      r.taken)
  }

  function Step(r: Receiver, e: Event): Receiver {
    match e
    case Byte(b) =>
      if b != NEWLINE then r.(lineBuf := r.lineBuf + [b])
      else if |r.lineBuf| > 0 then OfferLine(r)
      else r
    case Take => if |r.recvCh| > 0 then r.(taken := r.taken + [r.recvCh[0]], recvCh := r.recvCh[1..]) else r
    case Relink => r // neither connect nor the reconnect loop touches the buffer or the channel
  }

  function AsEvents(data: seq<byte>): (es: seq<Event>)
    ensures |es| == |data| && forall k :: 0 <= k < |data| ==> es[k] == Byte(data[k])
  {
    seq(|data|, k requires 0 <= k < |data| => Byte(data[k]))
  }

  class NotificationReader {
    var lineBuf: seq<byte>
    var recvCh: seq<seq<byte>>
    ghost var offers: seq<Offer>
    ghost var taken: seq<seq<byte>>

    ghost function View(): Receiver
      reads this
    {
      Receiver(lineBuf, recvCh, offers, taken)
    }

    constructor ()
      ensures View() == Receiver([], [], [], [])
    {
      lineBuf, recvCh, offers, taken := [], [], [], [];
    }

    /** onNotification: the bytes of one notification, in order. */
    method OnNotification(data: seq<byte>)
      modifies this
      ensures View() == Runs.After(Step, old(View()), AsEvents(data))
    {
      var i := 0;
      ghost var es := AsEvents(data);
      assert es[..0] == [];
      while i < |data|
        invariant 0 <= i <= |data|
        invariant View() == Runs.After(Step, old(View()), es[..i])
      {
        var ch := data[i];
        if ch == NEWLINE {
          var line := lineBuf;
          lineBuf := [];
          if |line| > 0 {
            offers := offers + [Offer(line, |recvCh| < RECV_CAPACITY, |recvCh|)];
            if |recvCh| < RECV_CAPACITY {
              recvCh := recvCh + [line];
            }
          }
        } else {
          lineBuf := lineBuf + [ch];
        }
        assert es[..i + 1] == es[..i] + [es[i]];
        Runs.Extend(Step, old(View()), es[..i], es[i]);
        i := i + 1;
      }
      assert es[..|data|] == es;
    }

    /** Receive, when a line is waiting. */
    method Receive() returns (line: seq<byte>)
      requires |recvCh| > 0
      modifies this
      ensures View() == Step(old(View()), Take)
      ensures line == old(recvCh)[0]
    {
      line := recvCh[0];
      recvCh := recvCh[1..];
      taken := taken + [line];
    }
  }
}

module BleFramingTheorems {
  import opened Bytes
  import opened BleFraming
  import Ceiling
  import Runs

  // ---- chunks ----

  function Concat(parts: seq<seq<byte>>): seq<byte> {
    if |parts| == 0 then [] else parts[0] + Concat(parts[1..])
  }

  /**
   The chunks of a payload concatenate to it; each has 1 to 240 bytes and all but the last exactly
   240; there are ceil(n / 240) of them.
   */
  lemma {:induction false} ChunksCover(payload: seq<byte>)
    ensures var cs := Chunks(payload);
            && Concat(cs) == payload
            && |cs| == (|payload| + 239) / 240
            && (forall k :: 0 <= k < |cs| ==> 0 < |cs[k]| <= 240)
            && (forall k :: 0 <= k < |cs| - 1 ==> |cs[k]| == 240)
  {
    ChunkCount(payload);
    Ceiling.PiecesIsCeiling(|payload|, CHUNK_SIZE);
    ChunksJoin(payload);
    forall k | 0 <= k < |Chunks(payload)|
      ensures 0 < |Chunks(payload)[k]| <= CHUNK_SIZE
      ensures k < |Chunks(payload)| - 1 ==> |Chunks(payload)[k]| == CHUNK_SIZE
    {
      ChunkSize(payload, k);
    }
  }

  lemma {:induction false} ChunkCount(payload: seq<byte>)
    ensures |Chunks(payload)| == Ceiling.Pieces(|payload|, CHUNK_SIZE)
  {
    if |payload| > CHUNK_SIZE {
      ChunkCount(payload[CHUNK_SIZE..]);
    }
  }

  lemma {:induction false} ChunkSize(payload: seq<byte>, k: nat)
    requires k < |Chunks(payload)|
    ensures 0 < |Chunks(payload)[k]| <= CHUNK_SIZE
    ensures k < |Chunks(payload)| - 1 ==> |Chunks(payload)[k]| == CHUNK_SIZE
  {
    if |payload| > CHUNK_SIZE && k > 0 {
      ChunkSize(payload[CHUNK_SIZE..], k - 1);
    }
  }

  lemma {:induction false} ChunksJoin(payload: seq<byte>)
    ensures Concat(Chunks(payload)) == payload
  {
    if |payload| > CHUNK_SIZE {
      ChunksJoin(payload[CHUNK_SIZE..]);
      assert Chunks(payload)[1..] == Chunks(payload[CHUNK_SIZE..]);
      assert payload[..CHUNK_SIZE] + payload[CHUNK_SIZE..] == payload;
    } else if |payload| > 0 {
      assert Chunks(payload)[1..] == [];
    }
  }

  // ---- lines ----

  /** The bytes among the events. */
  function BytesOf(es: seq<Event>): seq<byte> {
    if |es| == 0 then []
    else BytesOf(es[..|es| - 1]) + (if es[|es| - 1].Byte? then [es[|es| - 1].b] else [])
  }

  /** The lines a stream of bytes completes after `buf`, empty ones left out. */
  function LinesOf(buf: seq<byte>, bytes: seq<byte>): seq<seq<byte>>
    decreases |bytes|
  {
    if |bytes| == 0 then []
    else if bytes[0] != NEWLINE then LinesOf(buf + [bytes[0]], bytes[1..])
    else if |buf| == 0 then LinesOf([], bytes[1..])
    else [buf] + LinesOf([], bytes[1..])
  }

  /** What is left unfinished. */
  function RestOf(buf: seq<byte>, bytes: seq<byte>): seq<byte>
    decreases |bytes|
  {
    if |bytes| == 0 then buf
    else if bytes[0] != NEWLINE then RestOf(buf + [bytes[0]], bytes[1..])
    else RestOf([], bytes[1..])
  }

  lemma {:induction false} LinesConcat(buf: seq<byte>, a: seq<byte>, b: seq<byte>)
    ensures LinesOf(buf, a + b) == LinesOf(buf, a) + LinesOf(RestOf(buf, a), b)
    ensures RestOf(buf, a + b) == RestOf(RestOf(buf, a), b)
    decreases |a|
  {
    if |a| == 0 {
      assert a + b == b;
    } else {
      assert (a + b)[1..] == a[1..] + b && (a + b)[0] == a[0];
      LinesConcat(if a[0] != NEWLINE then buf + [a[0]] else [], a[1..], b);
    }
  }

  function LinesOffered(offers: seq<Offer>): seq<seq<byte>> {
    if |offers| == 0 then [] else LinesOffered(offers[..|offers| - 1]) + [offers[|offers| - 1].line]
  }

  function LinesQueued(offers: seq<Offer>): seq<seq<byte>> {
    if |offers| == 0 then []
    else LinesQueued(offers[..|offers| - 1]) + (if offers[|offers| - 1].queued then [offers[|offers| - 1].line] else [])
  }

  lemma OfferGrows(offers: seq<Offer>, o: Offer)
    ensures LinesOffered(offers + [o]) == LinesOffered(offers) + [o.line]
    ensures LinesQueued(offers + [o]) == LinesQueued(offers) + (if o.queued then [o.line] else [])
  {
    assert (offers + [o])[..|offers + [o]| - 1] == offers;
  }

  /** A queue to start from: what was queued was taken or is still there. */
  ghost predicate QueueInv(r: Receiver) {
    && LinesQueued(r.offers) == r.taken + r.recvCh
    && |r.recvCh| <= RECV_CAPACITY
    && (forall o :: o in r.offers && !o.queued ==> o.waiting == RECV_CAPACITY)
  }

  lemma StepKeepsQueue(r: Receiver, e: Event)
    requires QueueInv(r)
    ensures QueueInv(Step(r, e))
  {
    OfferGrows(r.offers, Offer(r.lineBuf, |r.recvCh| < RECV_CAPACITY, |r.recvCh|));
    if e.Take? && |r.recvCh| > 0 {
      assert r.recvCh == [r.recvCh[0]] + r.recvCh[1..];
    }
  }

  predicate Unrestricted(r: Receiver, e: Event) {
    true
  }

  lemma OneByte(r: Receiver, b: byte)
    ensures LinesOffered(Step(r, Byte(b)).offers) == LinesOffered(r.offers) + LinesOf(r.lineBuf, [b])
    ensures Step(r, Byte(b)).lineBuf == RestOf(r.lineBuf, [b])
  {
    OfferGrows(r.offers, Offer(r.lineBuf, |r.recvCh| < RECV_CAPACITY, |r.recvCh|));
    var bytes: seq<byte> := [b];
    assert bytes[1..] == [];
  }

  /**
   However the bytes are cut into notifications and however Receive calls fall between them, the
   lines offered are those of the byte stream, in order.
   */
  lemma {:induction false} OfferedAreTheLines(r: Receiver, es: seq<Event>)
    ensures var r' := Runs.After(Step, r, es);
            && LinesOffered(r'.offers) == LinesOffered(r.offers) + LinesOf(r.lineBuf, BytesOf(es))
            && r'.lineBuf == RestOf(r.lineBuf, BytesOf(es))
  {
    if |es| > 0 {
      var front, e := es[..|es| - 1], es[|es| - 1];
      OfferedAreTheLines(r, front);
      var r1 := Runs.After(Step, r, front);
      if e.Byte? {
        OneByte(r1, e.b);
        LinesConcat(r.lineBuf, BytesOf(front), [e.b]);
      } else {
        assert BytesOf(es) == BytesOf(front);
      }
    }
  }

  /** Every queued line is taken in order or still waiting; a line is lost only when 32 are waiting. */
  lemma LinesLostOnlyWhenFull(es: seq<Event>)
    ensures var r := Runs.After(Step, Receiver([], [], [], []), es);
            && LinesQueued(r.offers) == r.taken + r.recvCh
            && forall o :: o in r.offers && !o.queued ==> o.waiting == 32
  {
    forall r, e | QueueInv(r) && Unrestricted(r, e)
      ensures QueueInv(Step(r, e))
    {
      StepKeepsQueue(r, e);
    }
    Runs.AnyRunAbides(Step, Receiver([], [], [], []), Unrestricted, es);
    Runs.InvariantHolds(Step, Receiver([], [], [], []), Unrestricted, QueueInv, es);
  }

  // ---- notifications ----

  lemma {:induction false} BytesOfBytes(data: seq<byte>)
    ensures BytesOf(AsEvents(data)) == data
  {
    if |data| > 0 {
      var front := data[..|data| - 1];
      BytesOfBytes(front);
      assert AsEvents(data)[..|data| - 1] == AsEvents(front);
      assert data == front + [data[|data| - 1]];
    }
  }

  /** Feeding notifications one after the other. */
  ghost function FeedAll(r: Receiver, notifications: seq<seq<byte>>): Receiver
    decreases |notifications|
  {
    if |notifications| == 0 then r
    else FeedAll(Runs.After(Step, r, AsEvents(notifications[0])), notifications[1..])
  }

  lemma EventsConcat(a: seq<byte>, b: seq<byte>)
    ensures AsEvents(a + b) == AsEvents(a) + AsEvents(b)
  {
  }

  /** How the stream is cut does not matter. */
  lemma {:induction false} FragmentationIsInvisible(r: Receiver, notifications: seq<seq<byte>>)
    ensures FeedAll(r, notifications) == Runs.After(Step, r, AsEvents(Concat(notifications)))
    decreases |notifications|
  {
    if |notifications| > 0 {
      var first, rest := notifications[0], notifications[1..];
      FragmentationIsInvisible(Runs.After(Step, r, AsEvents(first)), rest);
      EventsConcat(first, Concat(rest));
      Runs.AfterConcat(Step, r, AsEvents(first), AsEvents(Concat(rest)));
    }
  }

  // ---- the round trip ----

  predicate IsMessage(m: seq<byte>) {
    |m| > 0 && NEWLINE !in m
  }

  /** The stream of a list of messages. */
  function Stream(messages: seq<seq<byte>>): seq<byte> {
    if |messages| == 0 then [] else Frame(messages[0]) + Stream(messages[1..])
  }

  lemma {:induction false} CleanBytesOnlyCollect(buf: seq<byte>, m: seq<byte>)
    requires NEWLINE !in m
    ensures LinesOf(buf, m) == [] && RestOf(buf, m) == buf + m
    decreases |m|
  {
    if |m| > 0 {
      CleanBytesOnlyCollect(buf + [m[0]], m[1..]);
      assert buf + [m[0]] + m[1..] == buf + m;
    } else {
      assert buf + m == buf;
    }
  }

  /** A framed message ends the line that `buf` began. */
  lemma FrameEndsLine(buf: seq<byte>, m: seq<byte>)
    requires NEWLINE !in m
    ensures LinesOf(buf, Frame(m)) == if |buf + m| == 0 then [] else [buf + m]
    ensures RestOf(buf, Frame(m)) == []
  {
    CleanBytesOnlyCollect(buf, m);
    LinesConcat(buf, m, [NEWLINE]);
    var nl: seq<byte> := [NEWLINE];
    assert nl[1..] == [];
    assert LinesOf(buf + m, nl) == if |buf + m| == 0 then [] else [buf + m] + [];
  }

  lemma {:induction false} MessagesComeBack(messages: seq<seq<byte>>)
    requires forall m :: m in messages ==> IsMessage(m)
    ensures LinesOf([], Stream(messages)) == messages && RestOf([], Stream(messages)) == []
  {
    if |messages| > 0 {
      var first := messages[0];
      assert IsMessage(first);
      MessagesComeBack(messages[1..]);
      FrameEndsLine([], first);
      LinesConcat([], Frame(first), Stream(messages[1..]));
      assert [] + first == first;
    }
  }

  lemma {:induction false} LinesAreMessages(buf: seq<byte>, bytes: seq<byte>)
    requires NEWLINE !in buf
    ensures forall l :: l in LinesOf(buf, bytes) ==> IsMessage(l)
    decreases |bytes|
  {
    if |bytes| > 0 {
      LinesAreMessages(if bytes[0] != NEWLINE then buf + [bytes[0]] else [], bytes[1..]);
    }
  }

  /** With something left over in the buffer the first message comes out joined to it. */
  lemma LeftoverJoinsFirst(buf: seq<byte>, messages: seq<seq<byte>>)
    requires NEWLINE !in buf && |messages| > 0 && IsMessage(messages[0])
    ensures |LinesOf(buf, Stream(messages))| > 0 && LinesOf(buf, Stream(messages))[0] == buf + messages[0]
  {
    FrameEndsLine(buf, messages[0]);
    LinesConcat(buf, Frame(messages[0]), Stream(messages[1..]));
  }

  /**
   The stream of a list of messages offers exactly that list and leaves the line buffer empty
   exactly when the buffer was empty to begin with and every message is non-empty and has no
   newline.  (The buffer is not cleared on reconnect: half a line from the old link stays in it.)
   */
  lemma RoundTripExactly(buf: seq<byte>, messages: seq<seq<byte>>)
    requires NEWLINE !in buf
    ensures LinesOf(buf, Stream(messages)) == messages && RestOf(buf, Stream(messages)) == []
            <==> buf == [] && forall m :: m in messages ==> IsMessage(m)
  {
    LinesAreMessages(buf, Stream(messages));
    if buf == [] && forall m :: m in messages ==> IsMessage(m) {
      MessagesComeBack(messages);
    } else if LinesOf(buf, Stream(messages)) == messages && |messages| > 0 {
      assert messages[0] in messages;
      LeftoverJoinsFirst(buf, messages);
    }
  }

  /** The buffer never holds a newline, so the round trip applies to every receiver. */
  lemma BufferHasNoNewline(es: seq<Event>)
    ensures NEWLINE !in Runs.After(Step, Receiver([], [], [], []), es).lineBuf
  {
    var inv := (r: Receiver) => NEWLINE !in r.lineBuf;
    Runs.AnyRunAbides(Step, Receiver([], [], [], []), Unrestricted, es);
    Runs.InvariantHolds(Step, Receiver([], [], [], []), Unrestricted, inv, es);
  }

  /**
   After any run and a new link, the messages sent over it are offered exactly if the old link had
   left nothing in the buffer; otherwise the first one comes out joined to what it had left.
   */
  lemma NextLinkExactly(es: seq<Event>, messages: seq<seq<byte>>)
    requires |messages| > 0 && forall m :: m in messages ==> IsMessage(m)
    ensures var r := Runs.After(Step, Receiver([], [], [], []), es);
            var r' := Runs.After(Step, r, [Relink] + AsEvents(Stream(messages)));
            var before := LinesOffered(r.offers);
            && r.lineBuf == RestOf([], BytesOf(es))
            && (LinesOffered(r'.offers) == before + messages <==> r.lineBuf == [])
            && |LinesOffered(r'.offers)| > |before|
            && LinesOffered(r'.offers)[|before|] == r.lineBuf + messages[0]
  {
    var r := Runs.After(Step, Receiver([], [], [], []), es);
    OfferedAreTheLines(Receiver([], [], [], []), es);
    BufferHasNoNewline(es);
    LinesOverNewLink(r, Stream(messages));
    StreamAfterLeftover(r.lineBuf, messages);
    CancelFront(LinesOffered(r.offers), LinesOf(r.lineBuf, Stream(messages)), messages);
  }

  lemma LinesOverNewLink(r: Receiver, stream: seq<byte>)
    ensures var r' := Runs.After(Step, r, [Relink] + AsEvents(stream));
            LinesOffered(r'.offers) == LinesOffered(r.offers) + LinesOf(r.lineBuf, stream)
  {
    RelinkKeeps(r);
    Runs.AfterConcat(Step, r, [Relink], AsEvents(stream));
    OfferedAreTheLines(r, AsEvents(stream));
    BytesOfBytes(stream);
  }

  lemma StreamAfterLeftover(buf: seq<byte>, messages: seq<seq<byte>>)
    requires NEWLINE !in buf && |messages| > 0 && forall m :: m in messages ==> IsMessage(m)
    ensures var lines := LinesOf(buf, Stream(messages));
            && (lines == messages <==> buf == [])
            && |lines| > 0 && lines[0] == buf + messages[0]
  {
    RoundTripExactly(buf, messages);
    assert messages[0] in messages;
    LeftoverJoinsFirst(buf, messages);
    if LinesOf(buf, Stream(messages)) == messages {
      assert |buf + messages[0]| == |messages[0]|;
    }
  }

  lemma CancelFront<T>(a: seq<T>, b: seq<T>, c: seq<T>)
    ensures a + b == a + c <==> b == c
  {
    if a + b == a + c {
      assert b == (a + b)[|a|..] && c == (a + c)[|a|..];
    }
  }

  lemma RelinkKeeps(r: Receiver)
    ensures Runs.After(Step, r, [Relink]) == r
  {
    Runs.One(Step, r, Unrestricted, Relink);
  }

  /** What Send writes for each message, chunk by chunk. */
  function Written(messages: seq<seq<byte>>): seq<byte> {
    if |messages| == 0 then [] else Concat(Chunks(Frame(messages[0]))) + Written(messages[1..])
  }

  /** Messages written in chunks, delivered in any fragmentation, with Receive calls anywhere, come back. */
  lemma SendThenReceive(messages: seq<seq<byte>>, es: seq<Event>)
    requires forall m :: m in messages ==> IsMessage(m)
    requires BytesOf(es) == Written(messages)
    ensures var r := Runs.After(Step, Receiver([], [], [], []), es);
            LinesOffered(r.offers) == messages && r.lineBuf == []
  {
    WrittenIsStream(messages);
    MessagesComeBack(messages);
    OfferedAreTheLines(Receiver([], [], [], []), es);
  }

  lemma {:induction false} WrittenIsStream(messages: seq<seq<byte>>)
    ensures Written(messages) == Stream(messages)
  {
    if |messages| > 0 {
      WrittenIsStream(messages[1..]);
      ChunksJoin(Frame(messages[0]));
    }
  }
}
