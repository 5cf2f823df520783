/** Paged framebuffer assembly (screenshot.go). */
module Screenshot {
  import opened Wrappers
  import opened Bytes
  import opened Base64

  /** 32 MiB: the largest frame a device may claim. */
  const MAX_BYTES: int := 33554432

  /** Take a fresh frame and send its first chunk, or send the chunk at an offset. */
  datatype Request = Capture | FetchAt(offset: nat)

  /** The fields of a reply that assembly reads. */
  datatype Chunk = Chunk(width: int, height: int, format: string, total: int, offset: int, data: string, error: string)

  datatype Reply = Failed(cause: string) | Got(chunk: Chunk)

  /** A device: what it replies to the last of the requests made so far.  Nothing is assumed of it. */
  type Device = seq<Request> -> Reply

  datatype Shot = Shot(width: int, height: int, format: string, pixels: seq<byte>)

  datatype Error =
    | TransportError(cause: string)
    | DeviceError(message: string)
    | EmptyFrame(total: int)
    | ImplausibleSize(total: int)
    | UndecodableChunk(offset: int)
    | OutOfOrder(want: int, got: int)
    | Overrun(offset: int, past: int)
    | EmptyChunk(offset: int, outstanding: int)
    | SizeChanged(first: int, later: int)

  /** What assembly returns, and the requests it made. */
  datatype Outcome = Outcome(result: Result<Shot, Error>, requests: seq<Request>)

  /** The loop from its top: `chunk` is the reply to the last request, `pixels` the bytes held. */
  function Continue(device: Device, requests: seq<Request>, first: Chunk, chunk: Chunk, pixels: seq<byte>): Outcome
    decreases first.total - |pixels|
  {
    match Decode(chunk.data)
    case None => Outcome(Failure(UndecodableChunk(chunk.offset)), requests)
    case Some(payload) =>
      var held := pixels + payload;
      if chunk.offset != |pixels| then Outcome(Failure(OutOfOrder(|pixels|, chunk.offset)), requests)
      else if |held| > first.total then Outcome(Failure(Overrun(chunk.offset, |held| - first.total)), requests)
      else if |payload| == 0 then
        Outcome(Failure(EmptyChunk(chunk.offset, first.total - |pixels|)), requests)
      else if |held| == first.total then
        Outcome(Success(Shot(first.width, first.height, first.format, held)), requests)
      else
        var more := requests + [FetchAt(|held|)];
        match device(more)
        case Failed(cause) => Outcome(Failure(TransportError(cause)), more)
        case Got(next) =>
          if next.error != "" then Outcome(Failure(DeviceError(next.error)), more)
          else if next.total != first.total then Outcome(Failure(SizeChanged(first.total, next.total)), more)
          else Continue(device, more, first, next, held)
  }

  function Assemble(device: Device): Outcome {
    match device([Capture])
    case Failed(cause) => Outcome(Failure(TransportError(cause)), [Capture])
    case Got(first) =>
      if first.error != "" then Outcome(Failure(DeviceError(first.error)), [Capture])
      else if first.total <= 0 then Outcome(Failure(EmptyFrame(first.total)), [Capture])
      else if first.total > MAX_BYTES then Outcome(Failure(ImplausibleSize(first.total)), [Capture])
      else Continue(device, [Capture], first, first, [])
  }

  /** assembleScreenshot: the loop over pages, proved to be `Assemble`. */
  method AssembleScreenshot(device: Device) returns (result: Result<Shot, Error>, requests: seq<Request>)
    ensures Outcome(result, requests) == Assemble(device)
    ensures result.Success? ==> 0 < |result.value.pixels| <= MAX_BYTES
  {
    requests := [Capture];
    var reply := device(requests);
    if reply.Failed? {
      return Failure(TransportError(reply.cause)), requests;
    }
    var first := reply.chunk;
    if first.error != "" {
      return Failure(DeviceError(first.error)), requests;
    }
    if first.total <= 0 {
      return Failure(EmptyFrame(first.total)), requests;
    }
    if first.total > MAX_BYTES {
      return Failure(ImplausibleSize(first.total)), requests;
    }
    var pixels: seq<byte> := [];
    var chunk := first;
    while true
      invariant |pixels| < first.total <= MAX_BYTES
      invariant Continue(device, requests, first, chunk, pixels) == Assemble(device)
      decreases first.total - |pixels|
    {
      var payload := Decode(chunk.data);
      if payload.None? {
        return Failure(UndecodableChunk(chunk.offset)), requests;
      }
      if chunk.offset != |pixels| {
        return Failure(OutOfOrder(|pixels|, chunk.offset)), requests;
      }
      if |payload.value| + |pixels| > first.total {
        return Failure(Overrun(chunk.offset, |payload.value| + |pixels| - first.total)), requests;
      }
      if |payload.value| == 0 {
        return Failure(EmptyChunk(chunk.offset, first.total - |pixels|)), requests;
      }
      pixels := pixels + payload.value;
      if |pixels| == first.total {
        return Success(Shot(first.width, first.height, first.format, pixels)), requests;
      }
      requests := requests + [FetchAt(|pixels|)];
      reply := device(requests);
      if reply.Failed? {
        return Failure(TransportError(reply.cause)), requests;
      }
      chunk := reply.chunk;
      if chunk.error != "" {
        return Failure(DeviceError(chunk.error)), requests;
      }
      if chunk.total != first.total {
        return Failure(SizeChanged(first.total, chunk.total)), requests;
      }
    }
  }
}

module ScreenshotTheorems {
  import opened Wrappers
  import opened Bytes
  import opened Base64
  import opened Screenshot
  import Ceiling

  // ---- any device ----

  /** The bytes a reply carries, if it carries any. */
  function PayloadOf(r: Reply): seq<byte> {
    if r.Got? && Decode(r.chunk.data).Some? then Decode(r.chunk.data).value else []
  }

  /** The bytes of all replies to the requests, in order. */
  function Received(device: Device, requests: seq<Request>): seq<byte> {
    if |requests| == 0 then []
    else Received(device, requests[..|requests| - 1]) + PayloadOf(device(requests))
  }

  /** The reply to the last request continues a frame of `total` bytes where the others left off. */
  predicate Fits(device: Device, requests: seq<Request>, total: int)
    requires |requests| > 0
  {
    var held := Received(device, requests[..|requests| - 1]);
    var r := device(requests);
    && r.Got? && r.chunk.error == "" && r.chunk.total == total && r.chunk.offset == |held|
    && Decode(r.chunk.data).Some? && |PayloadOf(r)| > 0 && |held| + |PayloadOf(r)| <= total
  }

  /** Each request asks for the first byte not yet held, and every earlier reply fits short of the end. */
  ghost predicate Orderly(device: Device, requests: seq<Request>, total: int) {
    && |requests| > 0
    && (forall i :: 0 < i < |requests| ==>
          requests[i] == FetchAt(|Received(device, requests[..i])|) && |Received(device, requests[..i])| < total)
    && (forall i :: 0 < i < |requests| ==> Fits(device, requests[..i], total))
  }

  /** What assembly has done whenever it is at the top of its loop. */
  ghost predicate AtTop(device: Device, requests: seq<Request>, first: Chunk, chunk: Chunk, pixels: seq<byte>) {
    && Orderly(device, requests, first.total)
    && 0 < first.total <= MAX_BYTES
    && requests[0] == Capture
    && device([Capture]) == Got(first)
    && device(requests) == Got(chunk) && chunk.error == "" && chunk.total == first.total
    && pixels == Received(device, requests[..|requests| - 1])
    && |requests| <= |pixels| + 1 <= first.total
  }

  /** What a finished assembly that got past the first checks satisfies. */
  ghost predicate Finished(device: Device, first: Chunk, o: Outcome) {
    && Orderly(device, o.requests, first.total)
    && o.requests[0] == Capture
    && |o.requests| <= first.total
    && (o.result.Success? <==>
          Fits(device, o.requests, first.total) && |Received(device, o.requests)| == first.total)
    && (o.result.Failure? ==> !Fits(device, o.requests, first.total))
    && (o.result.Success? ==>
          o.result.value == Shot(first.width, first.height, first.format, Received(device, o.requests)))
  }

  lemma OneMore(device: Device, requests: seq<Request>, total: int, next: Request)
    requires Orderly(device, requests, total) && Fits(device, requests, total)
    requires next == FetchAt(|Received(device, requests)|) && |Received(device, requests)| < total
    ensures Orderly(device, requests + [next], total)
  {
    var more := requests + [next];
    forall i | 0 < i < |more|
      ensures more[i] == FetchAt(|Received(device, more[..i])|)
      ensures |Received(device, more[..i])| < total && Fits(device, more[..i], total)
    {
      if i < |requests| {
        assert more[..i] == requests[..i];
      } else {
        assert more[..i] == requests;
      }
    }
  }

  lemma {:induction false} ContinueFinishes(
      device: Device, requests: seq<Request>, first: Chunk, chunk: Chunk, pixels: seq<byte>)
    requires AtTop(device, requests, first, chunk, pixels)
    ensures Finished(device, first, Continue(device, requests, first, chunk, pixels))
    decreases first.total - |pixels|
  {
    assert PayloadOf(device(requests)) == if Decode(chunk.data).Some? then Decode(chunk.data).value else [];
    if Fits(device, requests, first.total) {
      var held := pixels + Decode(chunk.data).value;
      assert held == Received(device, requests);
      if |held| < first.total {
        var more := requests + [FetchAt(|held|)];
        OneMore(device, requests, first.total, FetchAt(|held|));
        assert more[..|more| - 1] == requests;
        match device(more) {
          case Failed(_) =>
          case Got(next) =>
            if next.error == "" && next.total == first.total {
              ContinueFinishes(device, more, first, next, held);
            }
        }
      }
    }
  }

  /** The first reply announces a frame that assembly accepts. */
  predicate IsSane(r: Reply) {
    r.Got? && r.chunk.error == "" && 0 < r.chunk.total <= 33554432
  }

  /**
   Whatever the device replies, assembly ends, after at most as many fetches as the frame has bytes.
   It asks for one capture, first, and fails at once unless the reply announces an acceptable frame.
   Then it asks each time for the first byte it does not hold; it holds fewer bytes than the frame, at
   most 32 MiB, whenever it asks.  It succeeds exactly when the last reply fits and completes the
   frame, with the replies' bytes in order.
   */
  lemma AnyDevice(device: Device)
    ensures var o := Assemble(device);
            if IsSane(device([Capture])) then Finished(device, device([Capture]).chunk, o)
            else o.requests == [Capture] && o.result.Failure?
  {
    if IsSane(device([Capture])) {
      var first := device([Capture]).chunk;
      var requests := [Capture];
      assert requests[..0] == [];
      assert AtTop(device, [Capture], first, first, []);
      ContinueFinishes(device, [Capture], first, first, []);
    }
  }

  /** The reply is a chunk without an error, of a frame of that size. */
  predicate IsChunk(r: Reply, total: int) {
    r.Got? && r.chunk.error == "" && r.chunk.total == total
  }

  /** The chunk's data decodes, and starts at the first byte not held. */
  predicate IsNext(r: Reply, total: int, held: nat) {
    IsChunk(r, total) && Decode(r.chunk.data).Some? && r.chunk.offset == held
  }

  /** The error says what is wrong with the last reply, given the frame's size and the bytes held. */
  predicate Explains(e: Error, r: Reply, total: int, held: nat) {
    match e
    case TransportError(cause) => r == Failed(cause)
    case DeviceError(message) => r.Got? && message != "" && r.chunk.error == message
    case EmptyFrame(size) => held == 0 && IsChunk(r, size) && size <= 0
    case ImplausibleSize(size) => held == 0 && IsChunk(r, size) && size > 33554432
    case SizeChanged(first, later) => held > 0 && first == total && IsChunk(r, later) && later != total
    case UndecodableChunk(offset) => IsChunk(r, total) && Decode(r.chunk.data).None? && r.chunk.offset == offset
    case OutOfOrder(want, got) =>
      IsChunk(r, total) && Decode(r.chunk.data).Some? && want == held && r.chunk.offset == got && got != want
    case Overrun(offset, past) =>
      IsNext(r, total, held) && offset == held && past > 0 && held + |PayloadOf(r)| == total + past
    case EmptyChunk(offset, outstanding) =>
      IsNext(r, total, held) && PayloadOf(r) == [] && offset == held && held + outstanding == total
  }

  /** A failed assembly carries the error that explains it. */
  ghost predicate IsExplained(device: Device, total: int, o: Outcome) {
    |o.requests| > 0
    && (o.result.Failure? ==>
          Explains(o.result.error, device(o.requests), total, |Received(device, o.requests[..|o.requests| - 1])|))
  }

  /** The loop ends at a reply that does not fit, and says why. */
  lemma MisfitIsExplained(device: Device, requests: seq<Request>, first: Chunk, chunk: Chunk, pixels: seq<byte>)
    requires AtTop(device, requests, first, chunk, pixels) && !Fits(device, requests, first.total)
    ensures IsExplained(device, first.total, Continue(device, requests, first, chunk, pixels))
  {
    assert PayloadOf(device(requests)) == if Decode(chunk.data).Some? then Decode(chunk.data).value else [];
  }

  /** Neither does the loop go on after a reply that is no chunk of the frame. */
  lemma NoChunkIsExplained(device: Device, more: seq<Request>, first: Chunk, held: nat)
    requires |more| > 0 && held > 0 && !IsChunk(device(more), first.total)
    requires |Received(device, more[..|more| - 1])| == held
    ensures var e := match device(more)
                     case Failed(cause) => TransportError(cause)
                     case Got(next) =>
                       if next.error != "" then DeviceError(next.error) else SizeChanged(first.total, next.total);
            IsExplained(device, first.total, Outcome(Failure(e), more))
  {
  }

  lemma {:induction false} ContinueExplains(
      device: Device, requests: seq<Request>, first: Chunk, chunk: Chunk, pixels: seq<byte>)
    requires AtTop(device, requests, first, chunk, pixels)
    ensures IsExplained(device, first.total, Continue(device, requests, first, chunk, pixels))
    decreases first.total - |pixels|
  {
    if !Fits(device, requests, first.total) {
      MisfitIsExplained(device, requests, first, chunk, pixels);
    } else {
      var held := pixels + Decode(chunk.data).value;
      assert held == Received(device, requests);
      if |held| < first.total {
        var more := requests + [FetchAt(|held|)];
        OneMore(device, requests, first.total, FetchAt(|held|));
        assert more[..|more| - 1] == requests;
        if IsChunk(device(more), first.total) {
          ContinueExplains(device, more, first, device(more).chunk, held);
        } else {
          NoChunkIsExplained(device, more, first, |held|);
        }
      }
    }
  }

  /**
   Why assembly fails, whatever the device replies: its error names what is wrong with the last reply,
   given the size the first one announced and the bytes held before it.
   */
  lemma FailureIsExplained(device: Device)
    ensures IsExplained(device, if device([Capture]).Got? then device([Capture]).chunk.total else 0, Assemble(device))
  {
    var requests := [Capture];
    assert requests[..0] == [];
    if IsSane(device([Capture])) {
      var first := device([Capture]).chunk;
      assert AtTop(device, [Capture], first, first, []);
      ContinueExplains(device, [Capture], first, first, []);
    }
  }

  /** In numbers: how often the device is asked and how much is ever held. */
  lemma BoundedWork(device: Device)
    ensures var o := Assemble(device);
            && 1 <= |o.requests| <= 33554432
            && (forall i :: 0 < i < |o.requests| ==>
                  o.requests[i] == FetchAt(|Received(device, o.requests[..i])|)
                  && i <= |Received(device, o.requests[..i])| < 33554432)
  {
    AnyDevice(device);
    var o := Assemble(device);
    if |o.requests| > 1 {
      var first := device([Capture]).chunk;
      forall i: nat | 0 < i < |o.requests|
        ensures i <= |Received(device, o.requests[..i])|
      {
        EachReplyAdds(device, o.requests, first.total, i);
      }
    }
  }

  lemma FittingReplyAdds(device: Device, requests: seq<Request>, total: int)
    requires |requests| > 0 && Fits(device, requests, total)
    ensures |Received(device, requests)| > |Received(device, requests[..|requests| - 1])|
  {
  }

  lemma {:induction false} EachReplyAdds(device: Device, requests: seq<Request>, total: int, i: nat)
    requires i < |requests| && forall j :: 0 < j < |requests| ==> Fits(device, requests[..j], total)
    ensures i <= |Received(device, requests[..i])|
  {
    if i > 0 {
      EachReplyAdds(device, requests, total, i - 1);
      var sub := requests[..i];
      assert sub[..|sub| - 1] == requests[..i - 1];
      FittingReplyAdds(device, sub, total);
    }
  }

  // ---- an honest device ----

  /** The offset a request names; a capture starts at the beginning. */
  function OffsetOf(r: Request): nat {
    match r
    case Capture => 0
    case FetchAt(offset) => offset
  }

  function Min(a: nat, b: nat): nat {
    if a < b then a else b
  }

  /** Where the honest reply to the last request ends. */
  function EndOf(frame: seq<byte>, sizes: nat -> nat, requests: seq<Request>): nat
    requires |requests| > 0
  {
    Min(Min(OffsetOf(requests[|requests| - 1]), |frame|) + sizes(|requests| - 1), |frame|)
  }

  function HonestAnswer(
      frame: seq<byte>, width: int, height: int, format: string, sizes: nat -> nat, requests: seq<Request>): Reply
  {
    if |requests| == 0 then Failed("")
    else
      var offset := Min(OffsetOf(requests[|requests| - 1]), |frame|);
      var payload := frame[offset..EndOf(frame, sizes, requests)];
      Got(Chunk(width, height, format, |frame|, offset, Encode(payload), ""))
  }

  /** A device that pages out `frame`, its n-th reply carrying at most sizes(n) bytes. */
  function Honest(frame: seq<byte>, width: int, height: int, format: string, sizes: nat -> nat): Device {
    requests => HonestAnswer(frame, width, height, format, sizes, requests)
  }

  lemma DataDecodes(data: string, payload: seq<byte>)
    requires data == Encode(payload)
    ensures Decode(data) == Some(payload)
  {
    DecodeUndoesEncode(payload);
  }

  /** What an honest device replies when asked for byte k. */
  lemma HonestReply(
      frame: seq<byte>, width: int, height: int, format: string, sizes: nat -> nat, requests: seq<Request>, k: nat)
    requires k <= |frame| && |requests| > 0 && OffsetOf(requests[|requests| - 1]) == k
    ensures k <= EndOf(frame, sizes, requests) <= |frame|
    ensures var r := Honest(frame, width, height, format, sizes)(requests);
            && r.Got? && r.chunk.error == "" && r.chunk.total == |frame| && r.chunk.offset == k
            && r.chunk.width == width && r.chunk.height == height && r.chunk.format == format
            && r.chunk.data == Encode(frame[k..EndOf(frame, sizes, requests)])
  {
  }

  /** One turn of the loop on a reply that fits. */
  lemma GoodTurn(device: Device, requests: seq<Request>, first: Chunk, chunk: Chunk, frame: seq<byte>, k: nat, end: nat)
    requires k < end <= |frame| && first.total == |frame|
    requires chunk.offset == k && Decode(chunk.data) == Some(frame[k..end])
    requires var more := requests + [FetchAt(end)];
             end < |frame| ==>
               device(more).Got? && device(more).chunk.error == "" && device(more).chunk.total == |frame|
    ensures Continue(device, requests, first, chunk, frame[..k]) ==
            var more := requests + [FetchAt(end)];
            if end == |frame| then Outcome(Success(Shot(first.width, first.height, first.format, frame)), requests)
            else Continue(device, more, first, device(more).chunk, frame[..end])
  {
    assert frame[..k] + frame[k..end] == frame[..end];
    assert frame[..|frame|] == frame;
  }

  /** One turn of the loop with an honest device that has something to send. */
  lemma HonestTurn(
      frame: seq<byte>, width: int, height: int, format: string, sizes: nat -> nat, requests: seq<Request>,
      first: Chunk, k: nat)
    requires k < |frame| && |requests| > 0 && OffsetOf(requests[|requests| - 1]) == k && sizes(|requests| - 1) > 0
    requires first.total == |frame|
    ensures k < EndOf(frame, sizes, requests) <= |frame|
    ensures var device, end := Honest(frame, width, height, format, sizes), EndOf(frame, sizes, requests);
            var more := requests + [FetchAt(end)];
            && device(requests).Got? && device(more).Got?
            && Continue(device, requests, first, device(requests).chunk, frame[..k]) ==
               if end == |frame| then Outcome(Success(Shot(first.width, first.height, first.format, frame)), requests)
               else Continue(device, more, first, device(more).chunk, frame[..end])
  {
    var device := Honest(frame, width, height, format, sizes);
    var end := EndOf(frame, sizes, requests);
    HonestReply(frame, width, height, format, sizes, requests, k);
    HonestReply(frame, width, height, format, sizes, requests + [FetchAt(end)], end);
    DataDecodes(device(requests).chunk.data, frame[k..end]);
    GoodTurn(device, requests, first, device(requests).chunk, frame, k, end);
  }

  /** How many replies, from the n-th on, it takes to get from byte k to the end. */
  function Turns(length: nat, sizes: nat -> nat, n: nat, k: nat): nat
    requires k < length
    decreases length - k
  {
    if sizes(n) == 0 || k + sizes(n) >= length then 1 else 1 + Turns(length, sizes, n + 1, k + sizes(n))
  }

  lemma {:induction false} HonestContinues(
      frame: seq<byte>, width: int, height: int, format: string, sizes: nat -> nat, requests: seq<Request>,
      first: Chunk, k: nat)
    requires forall n :: sizes(n) > 0
    requires k < |frame| && |requests| > 0 && OffsetOf(requests[|requests| - 1]) == k
    requires first.total == |frame| && first.width == width && first.height == height && first.format == format
    ensures var device := Honest(frame, width, height, format, sizes);
            && device(requests).Got?
            && var o := Continue(device, requests, first, device(requests).chunk, frame[..k]);
               && o.result == Success(Shot(width, height, format, frame))
               && |o.requests| == |requests| - 1 + Turns(|frame|, sizes, |requests| - 1, k)
    decreases |frame| - k
  {
    var end := EndOf(frame, sizes, requests);
    HonestTurn(frame, width, height, format, sizes, requests, first, k);
    if end < |frame| {
      HonestContinues(frame, width, height, format, sizes, requests + [FetchAt(end)], first, end);
    }
  }

  /**
   An honest device's frame comes back byte for byte, whatever positive chunk sizes it uses, exactly
   when the frame is not empty and not larger than 32 MiB.
   */
  lemma HonestDevice(frame: seq<byte>, width: int, height: int, format: string, sizes: nat -> nat)
    requires forall n :: sizes(n) > 0
    ensures Assemble(Honest(frame, width, height, format, sizes)).result ==
            if |frame| == 0 then Failure(EmptyFrame(0))
            else if |frame| > 33554432 then Failure(ImplausibleSize(|frame|))
            else Success(Shot(width, height, format, frame))
  {
    var device := Honest(frame, width, height, format, sizes);
    if 0 < |frame| <= MAX_BYTES {
      HonestContinues(frame, width, height, format, sizes, [Capture], device([Capture]).chunk, 0);
      assert frame[..0] == [];
    }
  }

  lemma {:induction false} FixedSizeTurns(length: nat, sizes: nat -> nat, c: nat, n: nat, k: nat)
    requires c > 0 && k < length && forall m :: sizes(m) == c
    ensures Turns(length, sizes, n, k) == Ceiling.Pieces(length - k, c)
    decreases length - k
  {
    if k + c < length {
      FixedSizeTurns(length, sizes, c, n + 1, k + c);
    }
  }

  /** With chunks of c bytes an honest frame takes exactly ceil(|frame| / c) fetches. */
  lemma FixedSizeFetches(frame: seq<byte>, width: int, height: int, format: string, sizes: nat -> nat, c: nat)
    requires c > 0 && (forall n :: sizes(n) == c) && 0 < |frame| <= MAX_BYTES
    ensures |Assemble(Honest(frame, width, height, format, sizes)).requests| == (|frame| + c - 1) / c
  {
    HonestRequests(frame, width, height, format, sizes);
    FixedSizeTurns(|frame|, sizes, c, 0, 0);
    Ceiling.PiecesIsCeiling(|frame|, c);
  }

  lemma HonestRequests(frame: seq<byte>, width: int, height: int, format: string, sizes: nat -> nat)
    requires (forall n :: sizes(n) > 0) && 0 < |frame| <= MAX_BYTES
    ensures |Assemble(Honest(frame, width, height, format, sizes)).requests| == Turns(|frame|, sizes, 0, 0)
  {
    var device := Honest(frame, width, height, format, sizes);
    HonestContinues(frame, width, height, format, sizes, [Capture], device([Capture]).chunk, 0);
    assert frame[..0] == [];
  }
}
