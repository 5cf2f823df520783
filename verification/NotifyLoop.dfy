/** The consumer of the notification queue: callbacks by method name (client.go). */
module NotifyLoop {
  import opened Wrappers

  /** The events the client knows. */
  datatype Topic =
    | Message | Acknowledgement | NeighborChange | Traffic | BroadcastDelivery | Wifi | Gps | Location
    | ProbeResult | ProbeComplete | PeerLocation | IdentityChange | RollCall | RollCallResponse | RollCallComplete

  function TopicOf(name: string): Option<Topic> {
    match name
    case "bramble.onMessage" => Some(Message)
    case "bramble.onAck" => Some(Acknowledgement)
    case "bramble.onNeighborChange" => Some(NeighborChange)
    case "bramble.onTrafficEvent" => Some(Traffic)
    case "bramble.onBroadcastDelivery" => Some(BroadcastDelivery)
    case "bramble.onWifiEvent" => Some(Wifi)
    case "bramble.onGpsEvent" => Some(Gps)
    case "bramble.onLocationEvent" => Some(Location)
    case "bramble.onProbeResult" => Some(ProbeResult)
    case "bramble.onProbeComplete" => Some(ProbeComplete)
    case "bramble.onPeerLocation" => Some(PeerLocation)
    case "bramble.onIdentityChange" => Some(IdentityChange)
    case "bramble.onRollCall" => Some(RollCall)
    case "bramble.onRollCallResponse" => Some(RollCallResponse)
    case "bramble.onRollCallComplete" => Some(RollCallComplete)
    case _ => None
  }

  /** These two are reported without looking at the payload. */
  predicate HasPayload(t: Topic) {
    t != NeighborChange && t != PeerLocation
  }

  /** How much of an undecodable payload is reported. */
  const SNIPPET_LIMIT: nat := 512

  function Snippet(params: string): string {
    if |params| > SNIPPET_LIMIT then params[..SNIPPET_LIMIT] else params
  }

  datatype Note = Note(name: string, params: string)

  /** A call the loop makes into the application. */
  datatype Call = Deliver(topic: Topic, params: string) | DecodeError(name: string, snippet: string)

  /** The callbacks that are set. */
  datatype Handlers = Handlers(topics: set<Topic>, decodeError: bool)

  /** Whether a payload decodes as the topic's type: encoding/json is not modelled. */
  type Decoder = (Topic, string) -> bool

  /** The calls one notification causes, given the callbacks set when it is taken. */
  function React(decodes: Decoder, h: Handlers, n: Note): seq<Call> {
    match TopicOf(n.name)
    case None => []
    case Some(t) =>
      if t !in h.topics then []
      else if !HasPayload(t) then [Deliver(t, "")]
      else if decodes(t, n.params) then [Deliver(t, n.params)]
      else if h.decodeError then [DecodeError(n.name, Snippet(n.params))]
      else []
  }

  /** A setter runs, or the loop takes a notification. */
  datatype Event = SetHandler(topic: Topic, on: bool) | SetDecodeError(on: bool) | Taken(note: Note)

  datatype State = State(handlers: Handlers, calls: seq<Call>)

  function Step(decodes: Decoder, s: State, e: Event): State {
    match e
    case SetHandler(t, on) =>
      s.(handlers := s.handlers.(topics := if on then s.handlers.topics + {t} else s.handlers.topics - {t}))
    case SetDecodeError(on) => s.(handlers := s.handlers.(decodeError := on))
    case Taken(n) => s.(calls := s.calls + React(decodes, s.handlers, n))
  }

  class Client {
    const decodes: Decoder
    var topics: set<Topic>
    var decodeError: bool
    var calls: seq<Call>

    function View(): State
      reads this
    {
      State(Handlers(topics, decodeError), calls)
    }

    constructor (decodes: Decoder)
      ensures this.decodes == decodes && View() == State(Handlers({}, false), [])
    {
      this.decodes := decodes;
      topics, decodeError, calls := {}, false, [];
    }

    method On(topic: Topic, on: bool)
      modifies this
      ensures View() == Step(decodes, old(View()), SetHandler(topic, on))
    {
      topics := if on then topics + {topic} else topics - {topic};
    }

    method OnDecodeError(on: bool)
      modifies this
      ensures View() == Step(decodes, old(View()), SetDecodeError(on))
    {
      decodeError := on;
    }

    /** notifyDecode: whether the payload decodes; a failure is reported if a callback is set. */
    method NotifyDecode(name: string, topic: Topic, params: string, onErr: bool) returns (ok: bool)
      modifies this`calls
      ensures ok <==> decodes(topic, params)
      ensures calls == old(calls) + if !ok && onErr then [DecodeError(name, Snippet(params))] else []
    {
      ok := decodes(topic, params);
      if !ok {
        var snippet := params;
        if |snippet| > SNIPPET_LIMIT {
          snippet := snippet[..SNIPPET_LIMIT];
        }
        if onErr {
          calls := calls + [DecodeError(name, snippet)];
        }
      }
    }

    /** One turn of notifyLoop: snapshot the callbacks, then dispatch. */
    method HandleNotification(n: Note)
      modifies this
      ensures View() == Step(decodes, old(View()), Taken(n))
    {
      var snapshot, onErr := topics, decodeError;
      var topic := TopicOf(n.name);
      if topic.Some? && topic.value in snapshot {
        if HasPayload(topic.value) {
          var ok := NotifyDecode(n.name, topic.value, n.params, onErr);
          if ok {
            calls := calls + [Deliver(topic.value, n.params)];
          }
        } else {
          calls := calls + [Deliver(topic.value, "")];
        }
      }
    }
  }
}

module NotifyLoopTheorems {
  import opened Wrappers
  import opened NotifyLoop
  import Runs

  function StepFor(decodes: Decoder): (State, Event) -> State {
    (s: State, e: Event) => Step(decodes, s, e)
  }

  /** The calls made from `h` on: one notification after the other, each under the callbacks of its time. */
  function CallsOf(decodes: Decoder, h: Handlers, es: seq<Event>): seq<Call>
    decreases |es|
  {
    if |es| == 0 then []
    else
      (if es[0].Taken? then React(decodes, h, es[0].note) else [])
      + CallsOf(decodes, Step(decodes, State(h, []), es[0]).handlers, es[1..])
  }

  function HandlersAfter(decodes: Decoder, h: Handlers, es: seq<Event>): Handlers
    decreases |es|
  {
    if |es| == 0 then h else HandlersAfter(decodes, Step(decodes, State(h, []), es[0]).handlers, es[1..])
  }

  lemma {:induction false} CallsConcat(decodes: Decoder, h: Handlers, a: seq<Event>, b: seq<Event>)
    ensures CallsOf(decodes, h, a + b) == CallsOf(decodes, h, a) + CallsOf(decodes, HandlersAfter(decodes, h, a), b)
    ensures HandlersAfter(decodes, h, a + b) == HandlersAfter(decodes, HandlersAfter(decodes, h, a), b)
    decreases |a|
  {
    if |a| == 0 {
      assert a + b == b;
    } else {
      assert (a + b)[1..] == a[1..] + b && (a + b)[0] == a[0];
      CallsConcat(decodes, Step(decodes, State(h, []), a[0]).handlers, a[1..], b);
    }
  }

  /** The loop makes exactly those calls, in that order. */
  lemma {:induction false} LoopMakesTheCalls(decodes: Decoder, s: State, es: seq<Event>)
    ensures var s' := Runs.After(StepFor(decodes), s, es);
            && s'.calls == s.calls + CallsOf(decodes, s.handlers, es)
            && s'.handlers == HandlersAfter(decodes, s.handlers, es)
  {
    if |es| > 0 {
      var front, e := es[..|es| - 1], es[|es| - 1];
      LoopMakesTheCalls(decodes, s, front);
      assert front + [e] == es;
      CallsConcat(decodes, s.handlers, front, [e]);
      OneEvent(decodes, HandlersAfter(decodes, s.handlers, front), e);
    }
  }

  lemma OneEvent(decodes: Decoder, h: Handlers, e: Event)
    ensures CallsOf(decodes, h, [e]) == if e.Taken? then React(decodes, h, e.note) else []
    ensures HandlersAfter(decodes, h, [e]) == Step(decodes, State(h, []), e).handlers
  {
    var es: seq<Event> := [e];
    assert es[1..] == [];
  }

  /** What the loop does with a payload that does not decode: report it, if anyone asked. */
  lemma BadPayloadReaction(decodes: Decoder, h: Handlers, n: Note, topic: Topic)
    requires TopicOf(n.name) == Some(topic) && HasPayload(topic) && !decodes(topic, n.params)
    ensures React(decodes, h, n)
            == if topic in h.topics && h.decodeError then [DecodeError(n.name, Snippet(n.params))] else []
  {
  }

  /** One notification adds its own calls in its place and changes nothing before or after it. */
  lemma NotificationIsLocal(decodes: Decoder, h: Handlers, before: seq<Event>, n: Note, after: seq<Event>)
    ensures var kept := HandlersAfter(decodes, h, before);
            && CallsOf(decodes, h, before + [Taken(n)] + after)
               == CallsOf(decodes, h, before) + React(decodes, kept, n) + CallsOf(decodes, kept, after)
            && CallsOf(decodes, h, before + after) == CallsOf(decodes, h, before) + CallsOf(decodes, kept, after)
            && HandlersAfter(decodes, h, before + [Taken(n)] + after) == HandlersAfter(decodes, h, before + after)
  {
    var kept := HandlersAfter(decodes, h, before);
    CallsConcat(decodes, h, before, after);
    CallsConcat(decodes, h, before + [Taken(n)], after);
    CallsConcat(decodes, h, before, [Taken(n)]);
    OneEvent(decodes, kept, Taken(n));
  }

  /**
   A payload that does not decode suppresses its own callback and nothing else: the calls are those of
   the run without it, with the report of the error, or nothing, in its place.
   */
  lemma BadPayloadIsIsolated(decodes: Decoder, s: State, before: seq<Event>, n: Note, topic: Topic, after: seq<Event>)
    requires TopicOf(n.name) == Some(topic) && HasPayload(topic) && !decodes(topic, n.params)
    ensures var step := StepFor(decodes);
            var kept, dropped := Runs.After(step, s, before), Runs.After(step, s, before + after);
            var full := Runs.After(step, s, before + [Taken(n)] + after);
            var reported := topic in kept.handlers.topics && kept.handlers.decodeError;
            && kept.calls <= dropped.calls
            && full.calls == kept.calls + (if reported then [DecodeError(n.name, Snippet(n.params))] else [])
                             + dropped.calls[|kept.calls|..]
            && full.handlers == dropped.handlers
  {
    var h := HandlersAfter(decodes, s.handlers, before);
    LoopMakesTheCalls(decodes, s, before);
    LoopMakesTheCalls(decodes, s, before + after);
    LoopMakesTheCalls(decodes, s, before + [Taken(n)] + after);
    NotificationIsLocal(decodes, s.handlers, before, n, after);
    BadPayloadReaction(decodes, h, n, topic);
    Rejoin(s.calls, CallsOf(decodes, s.handlers, before), React(decodes, h, n), CallsOf(decodes, h, after));
  }

  lemma Rejoin(start: seq<Call>, a: seq<Call>, mid: seq<Call>, b: seq<Call>)
    ensures start + (a + mid + b) == start + a + mid + (start + (a + b))[|start + a|..]
    ensures start + a <= start + (a + b)
  {
  }

  // ---- what a notification causes ----

  /** The callback of `t` is set after these events: the last setter for it set it. */
  predicate IsSet(es: seq<Event>, t: Topic) {
    |es| > 0
    && var e := es[|es| - 1];
       if e.SetHandler? && e.topic == t then e.on else IsSet(es[..|es| - 1], t)
  }

  predicate IsErrorSet(es: seq<Event>) {
    |es| > 0
    && var e := es[|es| - 1];
       if e.SetDecodeError? then e.on else IsErrorSet(es[..|es| - 1])
  }

  const NOBODY: Handlers := Handlers({}, false)

  lemma {:induction false} SettersExactly(decodes: Decoder, es: seq<Event>)
    ensures var h := Runs.After(StepFor(decodes), State(NOBODY, []), es).handlers;
            && (forall t :: t in h.topics <==> IsSet(es, t))
            && (h.decodeError <==> IsErrorSet(es))
  {
    if |es| > 0 {
      SettersExactly(decodes, es[..|es| - 1]);
    }
  }

  /** At most this much of an undecodable payload is reported. */
  function Cut(params: string): string {
    if |params| > 512 then params[..512] else params
  }

  /** The calls added for a notification whose payload is decoded first. */
  predicate AddsPayload(decodes: Decoder, es: seq<Event>, n: Note, t: Topic, added: seq<Call>) {
    added == if !IsSet(es, t) then []
             else if decodes(t, n.params) then [Deliver(t, n.params)]
             else if IsErrorSet(es) then [DecodeError(n.name, Cut(n.params))]
             else []
  }

  /** The calls added for a notification that is passed on without its payload. */
  predicate AddsBare(es: seq<Event>, t: Topic, added: seq<Call>) {
    added == if IsSet(es, t) then [Deliver(t, "")] else []
  }

  /** The fifteen methods: what each adds to the calls made, and that no other method adds any. */
  predicate AddsExactly(decodes: Decoder, es: seq<Event>, n: Note, added: seq<Call>) {
    match n.name
    case "bramble.onMessage" => AddsPayload(decodes, es, n, Message, added)
    case "bramble.onAck" => AddsPayload(decodes, es, n, Acknowledgement, added)
    case "bramble.onNeighborChange" => AddsBare(es, NeighborChange, added)
    case "bramble.onTrafficEvent" => AddsPayload(decodes, es, n, Traffic, added)
    case "bramble.onBroadcastDelivery" => AddsPayload(decodes, es, n, BroadcastDelivery, added)
    case "bramble.onWifiEvent" => AddsPayload(decodes, es, n, Wifi, added)
    case "bramble.onGpsEvent" => AddsPayload(decodes, es, n, Gps, added)
    case "bramble.onLocationEvent" => AddsPayload(decodes, es, n, Location, added)
    case "bramble.onProbeResult" => AddsPayload(decodes, es, n, ProbeResult, added)
    case "bramble.onProbeComplete" => AddsPayload(decodes, es, n, ProbeComplete, added)
    case "bramble.onPeerLocation" => AddsBare(es, PeerLocation, added)
    case "bramble.onIdentityChange" => AddsPayload(decodes, es, n, IdentityChange, added)
    case "bramble.onRollCall" => AddsPayload(decodes, es, n, RollCall, added)
    case "bramble.onRollCallResponse" => AddsPayload(decodes, es, n, RollCallResponse, added)
    case "bramble.onRollCallComplete" => AddsPayload(decodes, es, n, RollCallComplete, added)
    case _ => added == []
  }

  lemma TopicReacts(decodes: Decoder, es: seq<Event>, h: Handlers, n: Note, t: Topic)
    requires TopicOf(n.name) == Some(t)
    requires (t in h.topics <==> IsSet(es, t)) && (h.decodeError <==> IsErrorSet(es))
    ensures if t == NeighborChange || t == PeerLocation then AddsBare(es, t, React(decodes, h, n))
            else AddsPayload(decodes, es, n, t, React(decodes, h, n))
  {
  }

  /** The reaction to a notification, given the callbacks set. */
  lemma ReactsExactly(decodes: Decoder, es: seq<Event>, n: Note)
    ensures var h := Runs.After(StepFor(decodes), State(NOBODY, []), es).handlers;
            AddsExactly(decodes, es, n, React(decodes, h, n))
  {
    var h := Runs.After(StepFor(decodes), State(NOBODY, []), es).handlers;
    SettersExactly(decodes, es);
    if TopicOf(n.name).Some? {
      TopicReacts(decodes, es, h, n, TopicOf(n.name).value);
    }
  }

  /**
   After any setters and notifications, a notification adds exactly its delivery if its callback is set
   and its payload decodes, at most a report if it does not decode, and nothing if its callback is not
   set or its method unknown; the calls made before stay as they are.
   */
  lemma NotificationAddsExactly(decodes: Decoder, es: seq<Event>, n: Note)
    ensures var before := Runs.After(StepFor(decodes), State(NOBODY, []), es).calls;
            var after := Runs.After(StepFor(decodes), State(NOBODY, []), es + [Taken(n)]).calls;
            && before <= after
            && AddsExactly(decodes, es, n, after[|before|..])
  {
    Runs.Extend(StepFor(decodes), State(NOBODY, []), es, Taken(n));
    ReactsExactly(decodes, es, n);
  }
}
