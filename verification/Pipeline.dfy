/**
 The multiplexer and the notification loop together (protocol.go, client.go): the loop takes from the
 queue the reader fills, and dispatches under the callbacks set at that time.
 */
module Pipeline {
  import opened ProtocolMemory
  import Multiplexer
  import MultiplexerInvariant
  import opened MultiplexerTheorems
  import NotifyLoop
  import NotifyLoopTheorems
  import Runs

  /** `seen` is what the client went through: its setters, and the notifications it took. */
  datatype State = State(mux: Multiplexer.State, client: NotifyLoop.State, seen: seq<NotifyLoop.Event>)

  /** An event of the multiplexer, or a setter of the client. */
  datatype Event = Mux(event: Multiplexer.Event) | Setter(change: NotifyLoop.Event)

  const NOBODY: NotifyLoop.Handlers := NotifyLoopTheorems.NOBODY

  function Init(): State {
    State(Multiplexer.Init(), NotifyLoop.State(NOBODY, []), [])
  }

  /** What the loop sees of a packet. */
  function NoteOf(p: Packet): NotifyLoop.Note {
    match p.frame
    case Malformed => NotifyLoop.Note("", "")
    case Envelope(_, name, _, params, _) => NotifyLoop.Note(name, params)
  }

  /** The client goes through one more event. */
  function See(decodes: NotifyLoop.Decoder, s: State, e: NotifyLoop.Event): State {
    s.(client := NotifyLoop.Step(decodes, s.client, e), seen := s.seen + [e])
  }

  function Step(decodes: NotifyLoop.Decoder, s: State, e: Event): State {
    match e
    case Mux(m) =>
      var s' := s.(mux := Multiplexer.Step(s.mux, m));
      if m.LoopTakes? && Multiplexer.Enabled(s.mux, m) then
        See(decodes, s', NotifyLoop.Taken(NoteOf(s.mux.sh.notifyCh[0])))
      else s'
    case Setter(c) => if c.Taken? then s else See(decodes, s, c)
  }

  function StepFor(decodes: NotifyLoop.Decoder): (State, Event) -> State {
    (s: State, e: Event) => Step(decodes, s, e)
  }

  ghost function After(decodes: NotifyLoop.Decoder, es: seq<Event>): State {
    Runs.After(StepFor(decodes), Init(), es)
  }

  /** The multiplexer's part of a run. */
  function MuxEvents(es: seq<Event>): seq<Multiplexer.Event> {
    if |es| == 0 then []
    else MuxEvents(es[..|es| - 1]) + (if es[|es| - 1].Mux? then [es[|es| - 1].event] else [])
  }

  function Notes(ps: seq<Packet>): (ns: seq<NotifyLoop.Note>)
    ensures |ns| == |ps| && forall k :: 0 <= k < |ps| ==> ns[k] == NoteOf(ps[k])
  {
    seq(|ps|, k requires 0 <= k < |ps| => NoteOf(ps[k]))
  }

  /** The notifications among the events, in order. */
  function NotesSeen(es: seq<NotifyLoop.Event>): seq<NotifyLoop.Note> {
    if |es| == 0 then []
    else NotesSeen(es[..|es| - 1]) + (if es[|es| - 1].Taken? then [es[|es| - 1].note] else [])
  }

  /** The client's state is that of its own run. */
  ghost predicate ClientRan(decodes: NotifyLoop.Decoder, s: State) {
    s.client == Runs.After(NotifyLoopTheorems.StepFor(decodes), NotifyLoop.State(NOBODY, []), s.seen)
  }

  lemma SeeOne(decodes: NotifyLoop.Decoder, s: State, e: NotifyLoop.Event)
    requires ClientRan(decodes, s)
    ensures ClientRan(decodes, See(decodes, s, e))
    ensures NotesSeen(s.seen + [e]) == NotesSeen(s.seen) + (if e.Taken? then [e.note] else [])
  {
    Runs.Extend(NotifyLoopTheorems.StepFor(decodes), NotifyLoop.State(NOBODY, []), s.seen, e);
    assert (s.seen + [e])[..|s.seen + [e]| - 1] == s.seen;
  }

  lemma TakenGrows(mux: Multiplexer.State, m: Multiplexer.Event)
    ensures Multiplexer.Step(mux, m).taken ==
            mux.taken + if m.LoopTakes? && Multiplexer.Enabled(mux, m) then [mux.sh.notifyCh[0]] else []
  {
  }

  lemma NotesGrow(ps: seq<Packet>, p: Packet)
    ensures Notes(ps + [p]) == Notes(ps) + [NoteOf(p)]
  {
  }

  lemma StepKeepsClient(decodes: NotifyLoop.Decoder, s: State, e: Event)
    requires ClientRan(decodes, s) && NotesSeen(s.seen) == Notes(s.mux.taken)
    ensures var s' := Step(decodes, s, e);
            && ClientRan(decodes, s') && NotesSeen(s'.seen) == Notes(s'.mux.taken)
            && s'.mux == if e.Mux? then Multiplexer.Step(s.mux, e.event) else s.mux
  {
    if e.Mux? {
      TakenGrows(s.mux, e.event);
      if e.event.LoopTakes? && Multiplexer.Enabled(s.mux, e.event) {
        SeeOne(decodes, s, NotifyLoop.Taken(NoteOf(s.mux.sh.notifyCh[0])));
        NotesGrow(s.mux.taken, s.mux.sh.notifyCh[0]);
      }
    } else if !e.change.Taken? {
      SeeOne(decodes, s, e.change);
    }
  }

  /** The parts of a run are runs of the parts, and the client takes what the multiplexer hands out. */
  lemma {:induction false} PartsAreRuns(decodes: NotifyLoop.Decoder, es: seq<Event>)
    ensures var s := After(decodes, es);
            && s.mux == Multiplexer.After(MuxEvents(es))
            && ClientRan(decodes, s) && NotesSeen(s.seen) == Notes(s.mux.taken)
  {
    if |es| > 0 {
      var front, e := es[..|es| - 1], es[|es| - 1];
      PartsAreRuns(decodes, front);
      StepKeepsClient(decodes, After(decodes, front), e);
      if e.Mux? {
        Runs.Extend(Multiplexer.Step, Multiplexer.Init(), MuxEvents(front), e.event);
      } else {
        assert MuxEvents(es) == MuxEvents(front);
      }
    }
  }

  /** What got into the queue are notifications: frames with a method and without an id. */
  lemma {:induction false} AcceptedAreNotifications(log: seq<Multiplexer.Entry>, p: Packet)
    requires forall e :: e in log ==> MultiplexerInvariant.FateFits(e)
    requires p in Multiplexer.Accepted(log)
    ensures p.frame.Envelope? && p.frame.id.None? && p.frame.name != ""
  {
    var front, e := log[..|log| - 1], log[|log| - 1];
    assert e in log;
    if p in Multiplexer.Accepted(front) {
      AcceptedAreNotifications(front, p);
    }
  }

  /** The note has the frame's method and params. */
  predicate IsNoteOf(n: NotifyLoop.Note, f: Frame) {
    f.Envelope? && n.name == f.name && n.params == f.params
  }

  /**
   From the wire to the application, in every run: the calls made are those of the client's setters
   and of the notifications it took, and these are a prefix of the accepted ones, which are an
   in-order subsequence of the notifications read.
   */
  lemma WireToCallback(decodes: NotifyLoop.Decoder, es: seq<Event>)
    ensures var s := After(decodes, es);
            && s.client.calls == NotifyLoopTheorems.CallsOf(decodes, NOBODY, s.seen)
            && |NotesSeen(s.seen)| <= |Multiplexer.Accepted(s.mux.log)|
            && (forall k :: 0 <= k < |NotesSeen(s.seen)| ==>
                  IsNoteOf(NotesSeen(s.seen)[k], Multiplexer.Accepted(s.mux.log)[k].frame))
            && |Multiplexer.Accepted(s.mux.log)| - |NotesSeen(s.seen)| == |s.mux.sh.notifyCh|
            && IsSubsequence(Multiplexer.Accepted(s.mux.log), Multiplexer.Notifications(s.mux.log))
  {
    var s := After(decodes, es);
    PartsAreRuns(decodes, es);
    NotificationPipeline(MuxEvents(es));
    NotifyLoopTheorems.LoopMakesTheCalls(decodes, NotifyLoop.State(NOBODY, []), s.seen);
    assert s.mux.taken <= Multiplexer.Accepted(s.mux.log);
    MultiplexerInvariant.InvAlways(MuxEvents(es));
    forall k | 0 <= k < |NotesSeen(s.seen)|
      ensures IsNoteOf(NotesSeen(s.seen)[k], Multiplexer.Accepted(s.mux.log)[k].frame)
    {
      assert s.mux.taken[k] == Multiplexer.Accepted(s.mux.log)[k];
      AcceptedAreNotifications(s.mux.log, Multiplexer.Accepted(s.mux.log)[k]);
    }
  }

  lemma HeadIsNotification(decodes: NotifyLoop.Decoder, es: seq<Event>)
    requires |After(decodes, es).mux.sh.notifyCh| > 0
    ensures var f := After(decodes, es).mux.sh.notifyCh[0].frame;
            f.Envelope? && f.id.None? && f.name != ""
  {
    var mux := After(decodes, es).mux;
    PartsAreRuns(decodes, es);
    MultiplexerInvariant.InvAlways(MuxEvents(es));
    assert mux.sh.notifyCh[0] in Multiplexer.Accepted(mux.log);
    AcceptedAreNotifications(mux.log, mux.sh.notifyCh[0]);
  }

  /** `calls` are the client's, and what it makes of the note under the callbacks set by now. */
  predicate Adds(decodes: NotifyLoop.Decoder, s: State, n: NotifyLoop.Note, calls: seq<NotifyLoop.Call>) {
    && s.client.calls <= calls
    && NotifyLoopTheorems.AddsExactly(decodes, s.seen, n, calls[|s.client.calls|..])
  }

  lemma SeeingAdds(decodes: NotifyLoop.Decoder, s: State, n: NotifyLoop.Note)
    requires ClientRan(decodes, s)
    ensures Adds(decodes, s, n, See(decodes, s, NotifyLoop.Taken(n)).client.calls)
  {
    Runs.Extend(NotifyLoopTheorems.StepFor(decodes), NotifyLoop.State(NOBODY, []), s.seen, NotifyLoop.Taken(n));
    NotifyLoopTheorems.NotificationAddsExactly(decodes, s.seen, n);
  }

  lemma TakingSees(decodes: NotifyLoop.Decoder, es: seq<Event>)
    requires |After(decodes, es).mux.sh.notifyCh| > 0
    ensures var s := After(decodes, es);
            After(decodes, es + [Mux(Multiplexer.LoopTakes)]).client
            == See(decodes, s, NotifyLoop.Taken(NoteOf(s.mux.sh.notifyCh[0]))).client
  {
    Runs.Extend(StepFor(decodes), Init(), es, Mux(Multiplexer.LoopTakes));
  }

  /**
   And one by one: whenever the loop takes from the queue, it is a notification, and the application
   gets exactly the calls its method and params ask for under the callbacks set by then.
   */
  lemma TakingDelivers(decodes: NotifyLoop.Decoder, es: seq<Event>)
    requires |After(decodes, es).mux.sh.notifyCh| > 0
    ensures var s := After(decodes, es);
            var f := s.mux.sh.notifyCh[0].frame;
            && f.Envelope? && f.id.None? && f.name != ""
            && Adds(decodes, s, NotifyLoop.Note(f.name, f.params),
                    After(decodes, es + [Mux(Multiplexer.LoopTakes)]).client.calls)
  {
    var s := After(decodes, es);
    HeadIsNotification(decodes, es);
    PartsAreRuns(decodes, es);
    SeeingAdds(decodes, s, NoteOf(s.mux.sh.notifyCh[0]));
    TakingSees(decodes, es);
  }
}
