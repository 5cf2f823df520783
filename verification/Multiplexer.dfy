/**
 Concurrent calls, the reader, the notification loop and the node, all interleaved (protocol.go).
 A call and the reader are goroutines with a program counter; each event is one atomic action.
 */
module Multiplexer {
  import opened Wrappers
  import opened ProtocolMemory
  import Runs

  /** How a Call ends. */
  datatype Outcome =
    | Answered(result: Json)
    | RpcFailed(error: RpcError)
    | MarshalFailed
    | SendFailed
    | Cancelled
    | Stopped

  /** What Call returns for a reply: its error object if it has one, else its result. */
  function OutcomeOf(f: Frame): Outcome
    requires f.Envelope?
  {
    if f.error.Some? then RpcFailed(f.error.value) else Answered(f.result)
  }

  /** Where a Call is.  `Sending(true)` has handed its request over, though Send has not returned. */
  datatype CallPc =
    | Allocated
    | Ready
    | Sending(handedOver: bool)
    | Backoff
    | Waiting
    | Closing(outcome: Outcome)
    | Returned(outcome: Outcome)

  predicate IsRegistered(pc: CallPc) {
    pc.Ready? || pc.Sending? || pc.Backoff? || pc.Waiting? || pc.Closing?
  }

  predicate HasChannel(pc: CallPc) {
    IsRegistered(pc) || (pc.Returned? && pc.outcome != MarshalFailed)
  }

  predicate IsAnswered(pc: CallPc) {
    (pc.Closing? || pc.Returned?) && (pc.outcome.Answered? || pc.outcome.RpcFailed?)
  }

  datatype ReaderPc =
    | Idle
    | Holding(packet: Packet)
    | Pushing(packet: Packet, ch: Chan)
    | Exited

  datatype Entry = Entry(packet: Packet, fate: Fate)

  datatype State = State(
    sh: Shared,
    calls: map<int, CallPc>,
    reader: ReaderPc,
    // the node and the wire
    emitted: seq<Frame>,
    unread: set<nat>,
    requests: multiset<int>,
    // history
    received: seq<Packet>,
    log: seq<Entry>,
    consumed: map<int, Packet>,
    taken: seq<Packet>)

  function Init(): State {
    State(NewShared(), map[], Idle, [], {}, multiset{}, [], [], map[], [])
  }

  datatype Event =
    | CallStarts
    | MarshalFails(id: int)
    | CallRegisters(id: int)
    | SendBegins(id: int)
    | RequestHandedOver(id: int)
    | SendSucceeds(id: int)
    | SendRefused(id: int)
    | SendBreaks(id: int)
    | RetryTimer(id: int)
    | ContextEnds(id: int)
    | DoneSeen(id: int)
    | ReplyTaken(id: int)
    | CallReturns(id: int)
    | NodeEmits(frame: Frame)
    | ReaderReceives(serial: nat)
    | ReaderRoutes
    | ReaderPushes
    | ReaderExits
    | LoopTakes
    | StopCalled

  predicate At(s: State, id: int, pc: CallPc) {
    id in s.calls && s.calls[id] == pc
  }

  predicate InSelect(s: State, id: int) {
    At(s, id, Backoff) || At(s, id, Waiting)
  }

  predicate Enabled(s: State, e: Event) {
    match e
    case CallStarts => true
    case MarshalFails(id) => At(s, id, Allocated)
    case CallRegisters(id) => At(s, id, Allocated)
    case SendBegins(id) => At(s, id, Ready)
    case RequestHandedOver(id) => At(s, id, Sending(false))
    case SendSucceeds(id) => id in s.calls && s.calls[id].Sending?
    case SendRefused(id) => id in s.calls && s.calls[id].Sending?
    case SendBreaks(id) => id in s.calls && s.calls[id].Sending?
    case RetryTimer(id) => At(s, id, Backoff)
    case ContextEnds(id) => InSelect(s, id)
    case DoneSeen(id) => InSelect(s, id) && s.sh.done
    case ReplyTaken(id) => At(s, id, Waiting) && HasReply(s.sh, id) && s.sh.chans[id][0].frame.Envelope?
    case CallReturns(id) => id in s.calls && s.calls[id].Closing?
    case NodeEmits(_) => true
    case ReaderReceives(n) => s.reader.Idle? && n in s.unread && n < |s.emitted|
    case ReaderRoutes => s.reader.Holding?
    case ReaderPushes => s.reader.Pushing? && HasRoom(s.sh, s.reader.ch)
    case ReaderExits => s.reader.Idle? && s.sh.done
    case LoopTakes => |s.sh.notifyCh| > 0
    case StopCalled => true
  }

  function Goto(s: State, id: int, pc: CallPc): State {
    s.(calls := s.calls[id := pc])
  }

  function Settle(s: State, p: Packet, fate: Fate): State {
    s.(reader := Idle, log := s.log + [Entry(p, fate)])
  }

  function Step(s: State, e: Event): State {
    if !Enabled(s, e) then s else
    match e
    case CallStarts =>
      var sh := Allocate(s.sh);
      Goto(s.(sh := sh), sh.nextID, Allocated)
    case MarshalFails(id) => Goto(s, id, Returned(MarshalFailed))
    case CallRegisters(id) => Goto(s.(sh := Register(s.sh, id)), id, Ready)
    case SendBegins(id) => Goto(s, id, Sending(false))
    case RequestHandedOver(id) => Goto(s.(requests := s.requests + multiset{id}), id, Sending(true))
    case SendSucceeds(id) => Goto(s, id, Waiting)
    case SendRefused(id) => Goto(s, id, Backoff)
    case SendBreaks(id) => Goto(s, id, Closing(SendFailed))
    case RetryTimer(id) => Goto(s, id, Ready)
    case ContextEnds(id) => Goto(s, id, Closing(Cancelled))
    case DoneSeen(id) => Goto(s, id, Closing(Stopped))
    case ReplyTaken(id) =>
      var p := s.sh.chans[id][0];
      Goto(s.(sh := TakeReply(s.sh, id), consumed := s.consumed[id := p]), id, Closing(OutcomeOf(p.frame)))
    case CallReturns(id) => Goto(s.(sh := Unregister(s.sh, id)), id, Returned(s.calls[id].outcome))
    case NodeEmits(f) => s.(emitted := s.emitted + [f], unread := s.unread + {|s.emitted|})
    case ReaderReceives(n) =>
      var p := Packet(n, s.emitted[n]);
      s.(unread := s.unread - {n}, received := s.received + [p], reader := Holding(p))
    case ReaderRoutes =>
      var p := s.reader.packet;
      var routing := RouteOf(s.sh, p);
      if routing.Deliver? then s.(reader := Pushing(p, routing.ch))
      else Settle(s.(sh := Routed(s.sh, p)), p, routing.fate)
    case ReaderPushes =>
      var p, ch := s.reader.packet, s.reader.ch;
      Settle(s.(sh := Push(s.sh, ch, p)), p, Delivered(ch))
    case ReaderExits => s.(reader := Exited)
    case LoopTakes => s.(taken := s.taken + [s.sh.notifyCh[0]], sh := TakeNotification(s.sh))
    case StopCalled => s.(sh := Stop(s.sh))
  }

  /** The state after a run. */
  ghost function After(es: seq<Event>): State {
    Runs.After(Step, Init(), es)
  }

  // ---- readings of the history ----

  function Packets(log: seq<Entry>): seq<Packet> {
    if |log| == 0 then [] else Packets(log[..|log| - 1]) + [log[|log| - 1].packet]
  }

  /** The frame in the reader's hand, if any. */
  function Hand(s: State): seq<Packet> {
    if s.reader.Holding? || s.reader.Pushing? then [s.reader.packet] else []
  }

  /** The notifications that got into the queue, in order. */
  function Accepted(log: seq<Entry>): seq<Packet> {
    if |log| == 0 then []
    else
      var rest, e := Accepted(log[..|log| - 1]), log[|log| - 1];
      if e.fate.Queued? then rest + [e.packet] else rest
  }

  /** The notifications read, in order, whatever became of them. */
  function Notifications(log: seq<Entry>): seq<Packet> {
    if |log| == 0 then []
    else
      var rest, e := Notifications(log[..|log| - 1]), log[|log| - 1];
      if IsNotification(e.packet.frame) then rest + [e.packet] else rest
  }

  /** How many replies to `id` the node has emitted. */
  function RepliesTo(emitted: seq<Frame>, id: int): nat {
    if |emitted| == 0 then 0
    else RepliesTo(emitted[..|emitted| - 1], id) + (if IsReplyTo(emitted[|emitted| - 1], id) then 1 else 0)
  }

  // ---- assumptions about the environment ----

  /** The node answers only ids already handed over to it. */
  predicate AnswersOnlySent(s: State, e: Event) {
    e.NodeEmits? && IsResponse(e.frame) ==> s.requests[e.frame.id.value] > 0
  }

  /** The node answers each request it was handed at most once. */
  predicate AnswersOnce(s: State, e: Event) {
    e.NodeEmits? && IsResponse(e.frame) ==> RepliesTo(s.emitted, e.frame.id.value) < s.requests[e.frame.id.value]
  }

  /** A Send that fails has handed nothing over. */
  predicate FailedSendDeliversNothing(s: State, e: Event) {
    (e.SendRefused? || e.SendBreaks?) && Enabled(s, e) ==> s.calls[e.id] == Sending(false)
  }

  /** The two together: each request is answered at most once, and a failed Send delivers nothing. */
  predicate OneReplyPerRequest(s: State, e: Event) {
    AnswersOnce(s, e) && FailedSendDeliversNothing(s, e)
  }

  predicate Unrestricted(s: State, e: Event) {
    true
  }
}
