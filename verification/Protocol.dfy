/**
 The JSON-RPC multiplexer's shared memory (protocol.go): the id counter, the table of pending
 calls, the reply channels, the notification queue and the stop signal.  Every operation below is
 one atomic action of a goroutine.  `Shared` is the memory as a value; class `Protocol` is the
 object the goroutines update, each method proved against the function on `Shared` of the same name.
 */
module ProtocolMemory {
  import opened Wrappers

  type Json = string

  datatype RpcError = RpcError(code: int, message: string)

  /** What the reader gets from the transport, already decoded (or not decodable). */
  datatype Frame =
    | Malformed
    | Envelope(id: Option<int>, name: string, result: Json, params: Json, error: Option<RpcError>)

  /** JSON-RPC 2.0 section 5: a reply names a request and no method. */
  predicate IsResponse(f: Frame) {
    f.Envelope? && f.id.Some? && f.name == ""
  }

  /** JSON-RPC 2.0 section 4.1: a notification names a method and no request. */
  predicate IsNotification(f: Frame) {
    f.Envelope? && f.name != "" && f.id.None?
  }

  predicate IsReplyTo(f: Frame, id: int) {
    IsResponse(f) && f.id.value == id
  }

  /** One frame the node put on the wire, told apart from equal frames by its serial number. */
  datatype Packet = Packet(serial: nat, frame: Frame)

  /** The capacity of the notification queue. */
  const NOTIFY_CAPACITY: nat := 64

  /** The capacity of a reply channel. */
  const REPLY_CAPACITY: nat := 1

  /** A reply channel, named after the call that made it. */
  type Chan = int

  datatype Shared = Shared(
    nextID: int,
    pending: map<int, Chan>,
    chans: map<Chan, seq<Packet>>,
    notifyCh: seq<Packet>,
    done: bool)

  /** What the reader does with a frame: hand it to a channel, or be finished with it. */
  datatype Routing = Deliver(ch: Chan) | Settled(fate: Fate)

  /** How a frame that was read ended. */
  datatype Fate =
    | Undecodable
    | Delivered(ch: Chan)
    | Unmatched
    | Queued
    | QueueFull(waiting: nat)
    | Ambiguous

  function NewShared(): Shared {
    Shared(0, map[], map[], [], false)
  }

  function Allocate(sh: Shared): Shared {
    sh.(nextID := sh.nextID + 1)
  }

  function Register(sh: Shared, id: int): Shared {
    sh.(chans := sh.chans[id := []], pending := sh.pending[id := id])
  }

  function Unregister(sh: Shared, id: int): Shared {
    sh.(pending := sh.pending - {id})
  }

  predicate HasRoom(sh: Shared, ch: Chan) {
    ch in sh.chans && |sh.chans[ch]| < REPLY_CAPACITY
  }

  function Push(sh: Shared, ch: Chan, p: Packet): Shared
    requires HasRoom(sh, ch)
  {
    sh.(chans := sh.chans[ch := sh.chans[ch] + [p]])
  }

  predicate HasReply(sh: Shared, ch: Chan) {
    ch in sh.chans && |sh.chans[ch]| > 0
  }

  function TakeReply(sh: Shared, ch: Chan): Shared
    requires HasReply(sh, ch)
  {
    sh.(chans := sh.chans[ch := sh.chans[ch][1..]])
  }

  function TakeNotification(sh: Shared): Shared
    requires |sh.notifyCh| > 0
  {
    sh.(notifyCh := sh.notifyCh[1..])
  }

  /** What the reader does with a decoded or undecodable frame. */
  function RouteOf(sh: Shared, p: Packet): Routing {
    if p.frame.Malformed? then Settled(Undecodable)
    else if IsResponse(p.frame) then
      if p.frame.id.value in sh.pending then Deliver(sh.pending[p.frame.id.value]) else Settled(Unmatched)
    else if IsNotification(p.frame) then
      if |sh.notifyCh| < NOTIFY_CAPACITY then Settled(Queued) else Settled(QueueFull(|sh.notifyCh|))
    else Settled(Ambiguous)
  }

  /** The memory after the decision: only an accepted notification changes it. */
  function Routed(sh: Shared, p: Packet): Shared {
    if RouteOf(sh, p) == Settled(Queued) then sh.(notifyCh := sh.notifyCh + [p]) else sh
  }

  function Stop(sh: Shared): Shared {
    sh.(done := true)
  }

  class Protocol {
    var nextID: int
    var pending: map<int, Chan>
    var chans: map<Chan, seq<Packet>>
    var notifyCh: seq<Packet>
    var done: bool

    function View(): Shared
      reads this
    {
      Shared(nextID, pending, chans, notifyCh, done)
    }

    constructor ()
      ensures View() == NewShared()
    {
      nextID, pending, chans, notifyCh, done := 0, map[], map[], [], false;
    }

    /** Call takes the next id. */
    method AllocateID() returns (id: int)
      modifies this
      ensures View() == Allocate(old(View()))
      ensures id == nextID
    {
      nextID := nextID + 1;
      id := nextID;
    }

    /** Call makes its reply channel and stores it, before it sends anything. */
    method StorePending(id: int)
      modifies this
      ensures View() == Register(old(View()), id)
    {
      chans := chans[id := []];
      pending := pending[id := id];
    }

    /** The deferred delete of Call. */
    method DeletePending(id: int)
      modifies this
      ensures View() == Unregister(old(View()), id)
    {
      pending := pending - {id};
    }

    /** The reader classifies a frame, looks its id up, or offers it to the notification queue. */
    method RouteFrame(p: Packet) returns (routing: Routing)
      modifies this
      ensures routing == RouteOf(old(View()), p) && View() == Routed(old(View()), p)
    {
      if p.frame.Malformed? {
        return Settled(Undecodable);
      }
      var isResponse := p.frame.id.Some? && p.frame.name == "";
      var isNotification := p.frame.name != "" && p.frame.id.None?;
      if isResponse {
        var id := p.frame.id.value;
        if id in pending {
          return Deliver(pending[id]);
        }
        return Settled(Unmatched);
      }
      if isNotification {
        if |notifyCh| < NOTIFY_CAPACITY {
          notifyCh := notifyCh + [p];
          return Settled(Queued);
        }
        return Settled(QueueFull(|notifyCh|));
      }
      return Settled(Ambiguous);
    }

    /** The reader's send on a reply channel, once the channel has room for it. */
    method PushReply(ch: Chan, p: Packet)
      requires HasRoom(View(), ch)
      modifies this
      ensures View() == Push(old(View()), ch, p)
    {
      chans := chans[ch := chans[ch] + [p]];
    }

    /** Call's receive from its reply channel, once something is in it. */
    method ReceiveReply(ch: Chan) returns (p: Packet)
      requires HasReply(View(), ch)
      modifies this
      ensures View() == TakeReply(old(View()), ch)
      ensures p == old(chans)[ch][0]
    {
      p := chans[ch][0];
      chans := chans[ch := chans[ch][1..]];
    }

    /** The notification loop's receive from the queue, once something is in it. */
    method ReceiveNotification() returns (p: Packet)
      requires |notifyCh| > 0
      modifies this
      ensures View() == TakeNotification(old(View()))
      ensures p == old(notifyCh)[0]
    {
      p := notifyCh[0];
      notifyCh := notifyCh[1..];
    }

    /** Safe to call any number of times. */
    method StopOnce()
      modifies this
      ensures View() == Stop(old(View()))
    {
      if !done {
        done := true;
      }
    }
  }
}
