/** The promises of the multiplexer, over every interleaving of calls, reader, loop and node. */
module MultiplexerTheorems {
  import opened Wrappers
  import opened ProtocolMemory
  import opened Multiplexer
  import opened MultiplexerInvariant
  import Runs

  // ---- correlation ----

  /** What a reply says: its error object makes an RPC error of it, else it is a result. */
  predicate Says(f: Frame, o: Outcome) {
    f.Envelope? && match o
    case Answered(result) => f.error == None && result == f.result
    case RpcFailed(error) => f.error == Some(error)
    case _ => false
  }

  /** A frame with exactly this id and without a method. */
  predicate AnswersId(f: Frame, id: int) {
    f.Envelope? && f.id == Some(id) && f.name == ""
  }

  /**
   A Call that ends with a result or an RPC error returns what a reply frame carrying exactly its own
   id says, a frame the node emitted and the reader gave to this call and no other.
   */
  lemma NoCrossTalk(es: seq<Event>, id: int)
    requires id in After(es).calls && IsAnswered(After(es).calls[id])
    ensures var s := After(es);
            && id in s.consumed
            && AnswersId(s.consumed[id].frame, id)
            && s.consumed[id].serial < |s.emitted| && s.emitted[s.consumed[id].serial] == s.consumed[id].frame
            && Says(s.consumed[id].frame, s.calls[id].outcome)
            && (forall other ::
                  other in s.consumed && s.consumed[other].serial == s.consumed[id].serial ==> other == id)
  {
    InvAlways(es);
    var s := After(es);
    assert ConsumedAt(s, id);
    forall other | other in s.consumed
      ensures s.consumed[other] in s.received && IsReplyTo(s.consumed[other].frame, other)
    {
      var e := Entry(s.consumed[other], Delivered(other));
      assert ConsumedAt(s, other) && e in s.log && FateFits(e);
      LoggedIsRead(s.log, e);
    }
  }

  /** The event was possible at some point of the run, and happened there. */
  ghost predicate Happened(es: seq<Event>, e: Event) {
    |es| > 0
    && (Happened(es[..|es| - 1], e) || (es[|es| - 1] == e && Enabled(After(es[..|es| - 1]), e)))
  }

  /** The call has chosen how it ends, whether or not it has returned yet. */
  predicate HasEnded(s: State, id: int) {
    id in s.calls && (s.calls[id].Closing? || s.calls[id].Returned?)
  }

  predicate EndsWith(s: State, id: int, o: Outcome) {
    HasEnded(s, id) && s.calls[id].outcome == o
  }

  /** The event by which call `id` ends so, if it is not by a reply. */
  function EndingEvent(id: int, o: Outcome): Event
    requires !o.Answered? && !o.RpcFailed?
  {
    match o
    case MarshalFailed => MarshalFails(id)
    case SendFailed => SendBreaks(id)
    case Cancelled => ContextEnds(id)
    case Stopped => DoneSeen(id)
  }

  /** An ending lasts, and no other event makes it. */
  lemma EndingStep(s: State, e: Event, id: int, o: Outcome)
    requires IdsInv(s) && !o.Answered? && !o.RpcFailed?
    ensures EndsWith(Step(s, e), id, o) <==> EndsWith(s, id, o) || (e == EndingEvent(id, o) && Enabled(s, e))
  {
    if !IsCallEvent(e) {
      OtherEventFrame(s, e);
    }
  }

  lemma {:induction false} EndsByItsEvent(es: seq<Event>, id: int, o: Outcome)
    requires !o.Answered? && !o.RpcFailed?
    ensures EndsWith(After(es), id, o) <==> Happened(es, EndingEvent(id, o))
  {
    if |es| > 0 {
      var front := es[..|es| - 1];
      EndsByItsEvent(front, id, o);
      InvAlways(front);
      EndingStep(After(front), es[|es| - 1], id, o);
    }
  }

  lemma {:induction false} DoneBeforeSeen(es: seq<Event>, id: int)
    requires Happened(es, DoneSeen(id))
    ensures After(es).sh.done
  {
    var front, e := es[..|es| - 1], es[|es| - 1];
    if Happened(front, DoneSeen(id)) {
      DoneBeforeSeen(front, id);
    }
    DoneStays(After(front), e);
  }

  lemma DoneStays(s: State, e: Event)
    ensures Step(s, e).sh.done <==> s.sh.done || e.StopCalled?
  {
  }

  /** done is set exactly if Stop has been called. */
  lemma {:induction false} DoneExactly(es: seq<Event>)
    ensures After(es).sh.done <==> StopCalled in es
  {
    if |es| > 0 {
      var front := es[..|es| - 1];
      DoneExactly(front);
      DoneStays(After(front), es[|es| - 1]);
      assert es == front + [es[|es| - 1]];
    }
  }

  lemma ExitStep(s: State, e: Event)
    ensures Step(s, e).reader.Exited? <==> s.reader.Exited? || (e.ReaderExits? && s.reader.Idle? && s.sh.done)
  {
  }

  /** The reader exits only after Stop, and then whenever it is idle it can. */
  lemma {:induction false} ReaderExitsExactly(es: seq<Event>)
    ensures After(es).reader.Exited? ==> StopCalled in es
    ensures After(es).reader.Idle? ==> (Step(After(es), ReaderExits).reader.Exited? <==> StopCalled in es)
  {
    DoneExactly(es);
    ExitStep(After(es), ReaderExits);
    if |es| > 0 {
      var front, e := es[..|es| - 1], es[|es| - 1];
      ReaderExitsExactly(front);
      DoneExactly(front);
      ExitStep(After(front), e);
      assert es == front + [e];
    }
  }

  /**
   A Call can be ended from outside at its two selects and nowhere else: by its context at any time,
   and by done once Stop has been called.
   */
  lemma CallCanEndExactly(es: seq<Event>, id: int)
    requires !HasEnded(After(es), id)
    ensures var s := After(es);
            var selecting := id in s.calls && (s.calls[id] == Backoff || s.calls[id] == Waiting);
            && (EndsWith(Step(s, ContextEnds(id)), id, Cancelled) <==> selecting)
            && (EndsWith(Step(s, DoneSeen(id)), id, Stopped) <==> selecting && StopCalled in es)
  {
    DoneExactly(es);
  }

  /**
   How a Call ends, in every run.  With a result exactly if the reply it consumed has no error object,
   and it is that reply's; with an RPC error exactly if it has one, and it is that one; cancelled
   exactly by its context, stopped exactly by seeing done, which Stop has set, failed exactly by its
   Send or by its marshalling.
   */
  lemma CallEndsExactly(es: seq<Event>, id: int)
    ensures var s := After(es);
            && (forall r :: EndsWith(s, id, Answered(r)) <==>
                  id in s.consumed && s.consumed[id].frame.Envelope?
                  && s.consumed[id].frame.error == None && r == s.consumed[id].frame.result)
            && (forall x :: EndsWith(s, id, RpcFailed(x)) <==>
                  id in s.consumed && s.consumed[id].frame.Envelope? && s.consumed[id].frame.error == Some(x))
            && (EndsWith(s, id, Cancelled) <==> Happened(es, ContextEnds(id)))
            && (EndsWith(s, id, Stopped) <==> Happened(es, DoneSeen(id)))
            && (EndsWith(s, id, SendFailed) <==> Happened(es, SendBreaks(id)))
            && (EndsWith(s, id, MarshalFailed) <==> Happened(es, MarshalFails(id)))
            && (EndsWith(s, id, Stopped) ==> StopCalled in es)
  {
    InvAlways(es);
    assert ConsumedAt(After(es), id);
    EndsByItsEvent(es, id, Cancelled);
    EndsByItsEvent(es, id, Stopped);
    EndsByItsEvent(es, id, SendFailed);
    EndsByItsEvent(es, id, MarshalFailed);
    if Happened(es, DoneSeen(id)) {
      DoneBeforeSeen(es, id);
      DoneExactly(es);
    }
  }

  lemma {:induction false} LoggedIsRead(log: seq<Entry>, e: Entry)
    requires e in log
    ensures e.packet in Packets(log)
  {
    if e != log[|log| - 1] {
      LoggedIsRead(log[..|log| - 1], e);
    }
  }

  /**
   Ids are never reused, and the table holds exactly the calls registered and not yet returned:
   once every call has returned it is empty.
   */
  lemma TableIsTheLiveCalls(es: seq<Event>)
    ensures var s := After(es);
            && s.sh.nextID + 1 !in s.calls
            && s.sh.pending.Keys == (set id | id in s.calls && IsRegistered(s.calls[id]))
            && ((forall id :: id in s.calls ==> s.calls[id].Returned?) ==> s.sh.pending == map[])
  {
    InvAlways(es);
    var s := After(es);
    forall id
      ensures id in s.sh.pending.Keys <==> id in (set id | id in s.calls && IsRegistered(s.calls[id]))
    {
      assert TableAt(s, id);
    }
    if forall id :: id in s.calls ==> s.calls[id].Returned? {
      assert s.sh.pending.Keys == {};
    }
  }

  // ---- conservation ----

  /** How many frames ended in each of the six ways. */
  datatype Tally = Tally(undecodable: nat, delivered: nat, unmatched: nat, queued: nat, dropped: nat, ambiguous: nat) {
    function Total(): nat {
      undecodable + delivered + unmatched + queued + dropped + ambiguous
    }
  }

  function TallyOf(log: seq<Entry>): Tally {
    if |log| == 0 then Tally(0, 0, 0, 0, 0, 0)
    else
      var t := TallyOf(log[..|log| - 1]);
      match log[|log| - 1].fate
      case Undecodable => t.(undecodable := t.undecodable + 1)
      case Delivered(_) => t.(delivered := t.delivered + 1)
      case Unmatched => t.(unmatched := t.unmatched + 1)
      case Queued => t.(queued := t.queued + 1)
      case QueueFull(_) => t.(dropped := t.dropped + 1)
      case Ambiguous => t.(ambiguous := t.ambiguous + 1)
  }

  lemma {:induction false} TallySums(log: seq<Entry>)
    ensures TallyOf(log).Total() == |log| == |Packets(log)|
    ensures TallyOf(log).queued == |Accepted(log)|
  {
    if |log| > 0 {
      TallySums(log[..|log| - 1]);
    }
  }

  lemma TallyGrows(log: seq<Entry>, e: Entry)
    ensures TallyOf(log + [e]).delivered == TallyOf(log).delivered + (if e.fate.Delivered? then 1 else 0)
  {
    assert (log + [e])[..|log + [e]| - 1] == log;
  }

  /** The channels with a reply in them. */
  function FullChannels(s: State): set<int> {
    set c | c in s.sh.chans && |s.sh.chans[c]| > 0
  }

  /** Replies delivered are the replies taken and those waiting in a channel. */
  ghost predicate Balanced(s: State) {
    TallyOf(s.log).delivered == |s.consumed| + |FullChannels(s)|
  }

  ghost predicate DeliveryInv(s: State) {
    Inv(s) && Balanced(s)
  }

  lemma PushKeepsBalance(s: State)
    requires Balanced(s) && Enabled(s, ReaderPushes)
    ensures Balanced(Step(s, ReaderPushes))
  {
    TallyGrows(s.log, Entry(s.reader.packet, Delivered(s.reader.ch)));
    assert FullChannels(Step(s, ReaderPushes)) == FullChannels(s) + {s.reader.ch};
  }

  lemma TakeKeepsBalance(s: State, id: int)
    requires Balanced(s) && Enabled(s, ReplyTaken(id))
    requires id !in s.consumed && |s.sh.chans[id]| == 1
    ensures Balanced(Step(s, ReplyTaken(id)))
  {
    var s' := Step(s, ReplyTaken(id));
    assert FullChannels(s') == FullChannels(s) - {id};
    assert s'.consumed.Keys == s.consumed.Keys + {id};
    assert |s'.consumed.Keys| == |s.consumed.Keys| + 1;
  }

  lemma RouteKeepsBalance(s: State)
    requires Balanced(s) && Enabled(s, ReaderRoutes)
    ensures Balanced(Step(s, ReaderRoutes))
  {
    RoutingFrame(s);
    OtherEventFrame(s, ReaderRoutes);
    var routing := RouteOf(s.sh, s.reader.packet);
    if routing.Settled? {
      TallyGrows(s.log, Entry(s.reader.packet, routing.fate));
    }
  }

  /** The other events neither deliver a reply nor take one. */
  lemma OtherwiseNothingIsDelivered(s: State, e: Event)
    requires !e.ReaderPushes? && !e.ReplyTaken? && !e.ReaderRoutes?
    requires e.CallRegisters? && Enabled(s, e) ==> e.id !in s.sh.chans
    ensures Step(s, e).log == s.log && Step(s, e).consumed == s.consumed
    ensures FullChannels(Step(s, e)) == FullChannels(s)
  {
    assert Step(s, e).sh.chans == if e.CallRegisters? && Enabled(s, e) then s.sh.chans[e.id := []] else s.sh.chans;
  }

  lemma StepKeepsBalance(s: State, e: Event)
    requires DeliveryInv(s)
    ensures Balanced(Step(s, e))
  {
    if !Enabled(s, e) {
    } else if e.ReaderPushes? {
      PushKeepsBalance(s);
    } else if e.ReplyTaken? {
      assert ConsumedAt(s, e.id);
      TakeKeepsBalance(s, e.id);
    } else if e.ReaderRoutes? {
      RouteKeepsBalance(s);
    } else {
      if e.CallRegisters? {
        assert TableAt(s, e.id);
      }
      OtherwiseNothingIsDelivered(s, e);
    }
  }

  lemma DeliveryAlways(es: seq<Event>)
    ensures DeliveryInv(After(es))
  {
    InitInv();
    assert FullChannels(Init()) == {};
    forall s, e | DeliveryInv(s) && Unrestricted(s, e)
      ensures DeliveryInv(Step(s, e))
    {
      StepKeepsInv(s, e);
      StepKeepsBalance(s, e);
    }
    Runs.AnyRunAbides(Step, Init(), Unrestricted, es);
    Runs.InvariantHolds(Step, Init(), Unrestricted, DeliveryInv, es);
  }

  /**
   No frame is lost or counted twice: those read are the undecodable, the delivered, the unmatched,
   the queued, the dropped and the ambiguous ones, and at most one in the reader's hand.  A queued
   one was taken or is still queued; a delivered one was taken or is still in its channel.
   */
  lemma Conservation(es: seq<Event>)
    ensures var s := After(es);
            var t := TallyOf(s.log);
            && |s.received| == t.Total() + |Hand(s)|
            && t.queued == |s.taken| + |s.sh.notifyCh|
            && t.delivered == |s.consumed| + |FullChannels(s)|
  {
    DeliveryAlways(es);
    TallySums(After(es).log);
  }

  /** What becomes of a frame is decided by its kind: only replies and notifications have a choice. */
  lemma FateByKind(es: seq<Event>, e: Entry)
    requires e in After(es).log
    ensures e.fate.Undecodable? <==> e.packet.frame.Malformed?
    ensures var f := e.packet.frame;
            && (e.fate.Delivered? || e.fate.Unmatched? <==> f.Envelope? && f.id.Some? && f.name == "")
            && (e.fate.Queued? || e.fate.QueueFull? <==> f.Envelope? && f.id.None? && f.name != "")
            && (e.fate.Delivered? ==> AnswersId(f, e.fate.ch))
  {
    InvAlways(es);
    assert FateFits(e);
  }

  // ---- notifications ----

  /** `a` is what is left of `b` when some elements are struck out. */
  ghost predicate IsSubsequence<T>(a: seq<T>, b: seq<T>) {
    if |b| == 0 then |a| == 0
    else
      IsSubsequence(a, b[..|b| - 1])
      || (|a| > 0 && a[|a| - 1] == b[|b| - 1] && IsSubsequence(a[..|a| - 1], b[..|b| - 1]))
  }

  lemma {:induction false} AcceptedIsSubsequence(log: seq<Entry>)
    requires forall e :: e in log ==> FateFits(e)
    ensures IsSubsequence(Accepted(log), Notifications(log))
  {
    if |log| > 0 {
      var rest, e := log[..|log| - 1], log[|log| - 1];
      assert e in log;
      AcceptedIsSubsequence(rest);
      if IsNotification(e.packet.frame) {
        var b := Notifications(log);
        assert b[..|b| - 1] == Notifications(rest);
        if e.fate.Queued? {
          var a := Accepted(log);
          assert a[..|a| - 1] == Accepted(rest);
        }
      }
    }
  }

  /**
   The loop takes a prefix of the accepted notifications; those are a subsequence, in order, of the
   notifications read; and one is left out only if 64 were waiting when it was routed.
   */
  lemma NotificationPipeline(es: seq<Event>)
    ensures var s := After(es);
            && s.taken <= Accepted(s.log)
            && Accepted(s.log)[|s.taken|..] == s.sh.notifyCh
            && IsSubsequence(Accepted(s.log), Notifications(s.log))
            && (forall e :: e in s.log && IsNotification(e.packet.frame) && !e.fate.Queued? ==>
                  e.fate == QueueFull(64))
  {
    InvAlways(es);
    var s := After(es);
    AcceptedIsSubsequence(s.log);
    forall e | e in s.log && IsNotification(e.packet.frame) && !e.fate.Queued?
      ensures e.fate == QueueFull(64)
    {
      assert FateFits(e);
    }
  }

  // ---- no lost reply ----

  /** Only a call that had stored its channel has handed a request over. */
  ghost predicate HandedOverInv(s: State) {
    forall id {:trigger s.requests[id]} :: s.requests[id] > 0 ==> id in s.calls && HasChannel(s.calls[id])
  }

  /** Every reply on the wire answers a request that was handed over. */
  ghost predicate AnsweredInv(s: State) {
    forall f :: f in s.emitted && IsResponse(f) ==> s.requests[f.id.value] > 0
  }

  /** A reply that found no entry in the table was for a call that has returned. */
  ghost predicate UnmatchedInv(s: State) {
    forall e :: e in s.log && e.fate.Unmatched? ==>
      IsResponse(e.packet.frame) && HasReturned(s, e.packet.frame.id.value)
  }

  /** What the node may answer was handed over by a call that had stored its channel first. */
  ghost predicate SentInv(s: State) {
    Inv(s) && HandedOverInv(s) && AnsweredInv(s) && UnmatchedInv(s)
  }

  /** Call `id` has returned. */
  ghost predicate HasReturned(s: State, id: int) {
    id in s.calls && s.calls[id].Returned?
  }

  lemma HandIsEmitted(s: State)
    requires Inv(s) && Hand(s) != []
    ensures s.reader.packet.frame in s.emitted
  {
    assert s.reader.packet in s.received;
  }

  /** A call keeps its channel, and stays returned. */
  lemma CallsOnlyAdvance(s: State, e: Event, id: int)
    requires TableAt(s, id) && (id in s.calls ==> id <= s.sh.nextID)
    ensures id in s.calls && HasChannel(s.calls[id]) ==>
              id in Step(s, e).calls && HasChannel(Step(s, e).calls[id])
    ensures HasReturned(s, id) ==> HasReturned(Step(s, e), id)
  {
    if !IsCallEvent(e) {
      OtherEventFrame(s, e);
    }
  }

  /** What was handed over stays so; a call hands over only while it is sending. */
  lemma RequestsOnlyGrow(s: State, e: Event, id: int)
    ensures s.requests[id] <= Step(s, e).requests[id]
    ensures s.requests[id] < Step(s, e).requests[id] ==> e == RequestHandedOver(id) && At(Step(s, e), id, Sending(true))
  {
    if !IsCallEvent(e) {
      OtherEventFrame(s, e);
    }
  }

  /** A reply that finds no entry in the table belongs to a call that has returned. */
  lemma UnmatchedMeansReturned(s: State)
    requires SentInv(s) && s.reader.Holding? && RouteOf(s.sh, s.reader.packet) == Settled(Unmatched)
    ensures HasReturned(s, s.reader.packet.frame.id.value)
  {
    HandIsEmitted(s);
    assert TableAt(s, s.reader.packet.frame.id.value);
  }

  /** Routing changes no call, and logs at most the frame in hand. */
  lemma RoutingFrame(s: State)
    requires s.reader.Holding?
    ensures var s', routing := Step(s, ReaderRoutes), RouteOf(s.sh, s.reader.packet);
            && s'.calls == s.calls
            && s'.log == if routing.Settled? then s.log + [Entry(s.reader.packet, routing.fate)] else s.log
  {
  }

  lemma RoutingKeepsUnmatched(s: State)
    requires SentInv(s) && Enabled(s, ReaderRoutes)
    ensures UnmatchedInv(Step(s, ReaderRoutes))
  {
    RoutingFrame(s);
    if RouteOf(s.sh, s.reader.packet) == Settled(Unmatched) {
      UnmatchedMeansReturned(s);
    }
  }

  lemma StepKeepsHandedOver(s: State, e: Event)
    requires Inv(s) && HandedOverInv(s)
    ensures HandedOverInv(Step(s, e))
  {
    var s' := Step(s, e);
    forall id {:trigger s'.requests[id]}
      ensures s'.requests[id] > 0 ==> id in s'.calls && HasChannel(s'.calls[id])
    {
      RequestsOnlyGrow(s, e, id);
      CallsOnlyAdvance(s, e, id);
    }
  }

  lemma StepKeepsAnswered(s: State, e: Event)
    requires Inv(s) && AnsweredInv(s) && AnswersOnlySent(s, e)
    ensures AnsweredInv(Step(s, e))
  {
    EmittedStep(s, e);
    var s' := Step(s, e);
    forall f | f in s'.emitted && IsResponse(f)
      ensures s'.requests[f.id.value] > 0
    {
      RequestsOnlyGrow(s, e, f.id.value);
    }
  }

  lemma StepKeepsUnmatched(s: State, e: Event)
    requires SentInv(s)
    ensures UnmatchedInv(Step(s, e))
  {
    if e.ReaderRoutes? && Enabled(s, e) {
      RoutingKeepsUnmatched(s);
    } else {
      EmittedStep(s, e);
      var s' := Step(s, e);
      forall x | x in s'.log && x.fate.Unmatched?
        ensures IsResponse(x.packet.frame) && HasReturned(s', x.packet.frame.id.value)
      {
        assert x in s.log;
        CallsOnlyAdvance(s, e, x.packet.frame.id.value);
      }
    }
  }

  lemma StepKeepsSent(s: State, e: Event)
    requires SentInv(s) && AnswersOnlySent(s, e)
    ensures SentInv(Step(s, e))
  {
    StepKeepsInv(s, e);
    StepKeepsHandedOver(s, e);
    StepKeepsAnswered(s, e);
    StepKeepsUnmatched(s, e);
  }

  /** Only routing finds a reply unmatched. */
  lemma EmittedStep(s: State, e: Event)
    ensures Step(s, e).emitted == s.emitted + (if e.NodeEmits? then [e.frame] else [])
    ensures !(e.ReaderRoutes? && Enabled(s, e)) ==>
              forall x :: x in Step(s, e).log && x.fate.Unmatched? ==> x in s.log
  {
  }

  lemma InitSent()
    ensures SentInv(Init())
  {
    InitInv();
  }

  lemma SentAlways(es: seq<Event>)
    requires Runs.Abides(Step, Init(), AnswersOnlySent, es)
    ensures SentInv(After(es))
  {
    InitSent();
    forall s, e | SentInv(s) && AnswersOnlySent(s, e)
      ensures SentInv(Step(s, e))
    {
      StepKeepsSent(s, e);
    }
    Runs.InvariantHolds(Step, Init(), AnswersOnlySent, SentInv, es);
  }

  lemma RoutedToItsCall(s: State, id: int)
    requires SentInv(s) && s.reader.Holding? && IsReplyTo(s.reader.packet.frame, id)
    ensures id in s.calls
    ensures !s.calls[id].Returned? ==> Step(s, ReaderRoutes).reader == Pushing(s.reader.packet, id)
  {
    HandIsEmitted(s);
    assert s.requests[id] > 0;
    assert TableAt(s, id);
  }

  lemma SettledReply(s: State, e: Entry, id: int)
    requires LogInv(s) && UnmatchedInv(s) && e in s.log && IsReplyTo(e.packet.frame, id)
    ensures (e.fate == Delivered(id) && Holds(s, id, e.packet)) || (e.fate == Unmatched && HasReturned(s, id))
  {
    assert FateFits(e);
  }

  /**
   If the node answers only what was handed over, then a reply routed while its call has not
   returned goes to that call's channel, even if Send has not returned yet; and every reply dealt
   with either was delivered, and is in the channel or taken by that call, or its call had returned.
   */
  lemma NoLostReply(es: seq<Event>, id: int)
    requires Runs.Abides(Step, Init(), AnswersOnlySent, es)
    ensures var s := After(es);
            s.reader.Holding? && IsReplyTo(s.reader.packet.frame, id) ==>
              && id in s.calls
              && (!s.calls[id].Returned? ==> Step(s, ReaderRoutes).reader == Pushing(s.reader.packet, id))
    ensures var s := After(es);
            forall e :: e in s.log && IsReplyTo(e.packet.frame, id) ==>
              (e.fate == Delivered(id) && Holds(s, id, e.packet)) || (e.fate == Unmatched && HasReturned(s, id))
  {
    SentAlways(es);
    var s := After(es);
    if s.reader.Holding? && IsReplyTo(s.reader.packet.frame, id) {
      RoutedToItsCall(s, id);
    }
    forall e | e in s.log && IsReplyTo(e.packet.frame, id)
      ensures (e.fate == Delivered(id) && Holds(s, id, e.packet)) || (e.fate == Unmatched && HasReturned(s, id))
    {
      SettledReply(s, e, id);
    }
  }

  /**
   Whatever the node does, a reply in the reader's hand goes to its call's channel exactly if the call
   is registered and has not returned at that moment; otherwise it is dropped as unmatched.
   */
  lemma ReplyRoutedExactly(es: seq<Event>, id: int)
    requires After(es).reader.Holding? && IsReplyTo(After(es).reader.packet.frame, id)
    ensures var s := After(es);
            if id in s.calls && IsRegistered(s.calls[id]) then
              Step(s, ReaderRoutes).reader == Pushing(s.reader.packet, id)
            else
              Step(s, ReaderRoutes).reader == Idle && Step(s, ReaderRoutes).sh == s.sh
              && Step(s, ReaderRoutes).log == s.log + [Entry(s.reader.packet, Unmatched)]
  {
    InvAlways(es);
    assert TableAt(After(es), id);
  }

  // ---- reader progress ----

  predicate HasHandedOver(pc: CallPc) {
    pc == Sending(true) || pc.Waiting? || pc.Closing? || pc.Returned?
  }

  /** The request of `id` was handed over at most once, and answered at most as often. */
  ghost predicate OnceAt(s: State, id: int) {
    && s.requests[id] <= 1
    && (s.requests[id] > 0 ==> id in s.calls && HasHandedOver(s.calls[id]))
    && RepliesTo(s.emitted, id) <= s.requests[id]
  }

  ghost predicate OnceInv(s: State) {
    Inv(s) && forall id :: OnceAt(s, id)
  }

  lemma EmissionKeepsOnceAt(s: State, f: Frame, id: int)
    requires OnceAt(s, id) && AnswersOnce(s, NodeEmits(f))
    ensures OnceAt(Step(s, NodeEmits(f)), id)
  {
    var s' := Step(s, NodeEmits(f));
    assert s'.emitted[..|s'.emitted| - 1] == s.emitted;
  }

  /** A call that has handed its request over does not do so again, if failed sends hand nothing over. */
  lemma HandedOverStays(s: State, e: Event, id: int)
    requires id in s.calls && HasHandedOver(s.calls[id]) && id <= s.sh.nextID && FailedSendDeliversNothing(s, e)
    ensures id in Step(s, e).calls && HasHandedOver(Step(s, e).calls[id])
    ensures Step(s, e).requests[id] == s.requests[id]
  {
    RequestsOnlyGrow(s, e, id);
  }

  lemma StepKeepsOnceAt(s: State, e: Event, id: int)
    requires IdsInv(s) && OnceAt(s, id) && OneReplyPerRequest(s, e)
    ensures OnceAt(Step(s, e), id)
  {
    if e.NodeEmits? {
      EmissionKeepsOnceAt(s, e.frame, id);
    } else {
      EmittedStep(s, e);
      if s.requests[id] > 0 {
        HandedOverStays(s, e, id);
      } else {
        FirstHandOver(s, e, id);
      }
    }
  }

  lemma FirstHandOver(s: State, e: Event, id: int)
    requires s.requests[id] == 0
    ensures Step(s, e).requests[id] <= 1
    ensures Step(s, e).requests[id] > 0 ==> At(Step(s, e), id, Sending(true))
  {
    RequestsOnlyGrow(s, e, id);
  }

  lemma StepKeepsOnce(s: State, e: Event)
    requires OnceInv(s) && OneReplyPerRequest(s, e)
    ensures OnceInv(Step(s, e))
  {
    StepKeepsInv(s, e);
    forall id
      ensures OnceAt(Step(s, e), id)
    {
      StepKeepsOnceAt(s, e, id);
    }
  }

  lemma OnceAlways(es: seq<Event>)
    requires Runs.Abides(Step, Init(), OneReplyPerRequest, es)
    ensures OnceInv(After(es))
  {
    InitInv();
    assert forall id :: OnceAt(Init(), id);
    forall s, e | OnceInv(s) && OneReplyPerRequest(s, e)
      ensures OnceInv(Step(s, e))
    {
      StepKeepsOnce(s, e);
    }
    Runs.InvariantHolds(Step, Init(), OneReplyPerRequest, OnceInv, es);
  }

  lemma {:induction false} OneReplyCounts(emitted: seq<Frame>, id: int, i: nat)
    requires i < |emitted| && IsReplyTo(emitted[i], id)
    ensures RepliesTo(emitted, id) >= 1
  {
    if i < |emitted| - 1 {
      OneReplyCounts(emitted[..|emitted| - 1], id, i);
    }
  }

  lemma {:induction false} TwoRepliesCount(emitted: seq<Frame>, id: int, i: nat, j: nat)
    requires i < j < |emitted| && IsReplyTo(emitted[i], id) && IsReplyTo(emitted[j], id)
    ensures RepliesTo(emitted, id) >= 2
  {
    if j < |emitted| - 1 {
      TwoRepliesCount(emitted[..|emitted| - 1], id, i, j);
    } else {
      OneReplyCounts(emitted[..|emitted| - 1], id, i);
    }
  }

  /** The packet in hand and one delivered before are two different emissions. */
  lemma HandIsNew(s: State, c: int, q: Packet)
    requires Inv(s) && Hand(s) != []
    requires Entry(q, Delivered(c)) in s.log
    ensures q.serial < |s.emitted| && s.emitted[q.serial] == q.frame && IsReplyTo(q.frame, c)
    ensures s.reader.packet.serial < |s.emitted| && s.emitted[s.reader.packet.serial] == s.reader.packet.frame
    ensures q.serial != s.reader.packet.serial
  {
    var e := Entry(q, Delivered(c));
    assert FateFits(e);
    LoggedIsRead(s.log, e);
    var i :| 0 <= i < |Packets(s.log)| && Packets(s.log)[i] == q;
    assert s.received[i] == q && s.received[|s.received| - 1] == s.reader.packet;
    assert s.reader.packet in s.received && q in s.received;
  }

  /**
   If the node answers each request it was handed at most once and a failed Send hands nothing
   over, the reader never blocks on a reply channel: whenever it is about to push, it can.
   */
  lemma ReaderNeverBlocks(es: seq<Event>)
    requires Runs.Abides(Step, Init(), OneReplyPerRequest, es)
    ensures After(es).reader.Pushing? ==> Enabled(After(es), ReaderPushes)
  {
    OnceAlways(es);
    var s := After(es);
    if s.reader.Pushing? {
      assert OnceAt(s, s.reader.ch);
    }
    if s.reader.Pushing? && |s.sh.chans[s.reader.ch]| > 0 {
      var c, p, q := s.reader.ch, s.reader.packet, s.sh.chans[s.reader.ch][0];
      assert q in s.sh.chans[c];
      HandIsNew(s, c, q);
      if p.serial < q.serial {
        TwoRepliesCount(s.emitted, c, p.serial, q.serial);
      } else {
        TwoRepliesCount(s.emitted, c, q.serial, p.serial);
      }
      assert false;
    }
  }

  /**
   Under the same assumption a reply in the reader's hand reaches a call that has not returned:
   the reader's next two actions leave exactly that packet in the call's channel.
   */
  lemma ReplyLands(es: seq<Event>, id: int)
    requires Runs.Abides(Step, Init(), OneReplyPerRequest, es)
    requires After(es).reader.Holding? && IsReplyTo(After(es).reader.packet.frame, id)
    ensures var s := After(es);
            && id in s.calls
            && (!s.calls[id].Returned? ==>
                  var s' := Step(Step(s, ReaderRoutes), ReaderPushes);
                  s'.reader == Idle && id in s'.sh.chans && s'.sh.chans[id] == [s.reader.packet])
  {
    var s := After(es);
    Runs.AbidesWeaker(Step, Init(), OneReplyPerRequest, AnswersOnlySent, es);
    NoLostReply(es, id);
    if !s.calls[id].Returned? {
      var more := es + [ReaderRoutes];
      Runs.Extend(Step, Init(), es, ReaderRoutes);
      assert more[..|more| - 1] == es;
      ReaderNeverBlocks(more);
      InvAlways(more);
    }
  }

  // ---- when the reader does block ----

  /** The reader is at a full channel. */
  ghost predicate Blocked(s: State) {
    s.reader.Pushing? && !HasRoom(s.sh, s.reader.ch)
  }

  /** The call has chosen how it ends: it will not receive again. */
  ghost predicate Deaf(s: State, id: int) {
    id in s.calls && (s.calls[id].Closing? || s.calls[id].Returned?)
  }

  /** Whatever happens next, the reader stays where it is. */
  ghost predicate StuckForever(s: State) {
    forall es: seq<Event> :: Runs.After(Step, s, es).reader == s.reader
  }

  ghost predicate StillStuck(r: ReaderPc, s: State) {
    s.reader == r && Blocked(s) && Deaf(s, s.reader.ch) && IdsInv(s)
  }

  lemma StepKeepsStuck(r: ReaderPc, s: State, e: Event)
    requires StillStuck(r, s)
    ensures StillStuck(r, Step(s, e))
  {
  }

  lemma {:induction false} DeafStaysStuck(s: State, es: seq<Event>)
    requires IdsInv(s) && Blocked(s) && Deaf(s, s.reader.ch)
    ensures StillStuck(s.reader, Runs.After(Step, s, es))
  {
    if |es| > 0 {
      DeafStaysStuck(s, es[..|es| - 1]);
      StepKeepsStuck(s.reader, Runs.After(Step, s, es[..|es| - 1]), es[|es| - 1]);
    }
  }

  /** How far a call is from receiving. */
  function Distance(pc: CallPc): nat {
    if pc.Backoff? then 3 else if pc.Ready? then 2 else if pc.Sending? then 1 else 0
  }

  function NextCallEvent(pc: CallPc, id: int): Event {
    if pc.Backoff? then RetryTimer(id) else if pc.Ready? then SendBegins(id) else SendSucceeds(id)
  }

  /** A call that can still receive can be brought to its receive without moving the reader. */
  lemma BringToReceive(s: State, c: int) returns (es: seq<Event>)
    requires c in s.calls && IsRegistered(s.calls[c]) && !s.calls[c].Closing?
    ensures var s' := Runs.After(Step, s, es);
            s'.reader == s.reader && s'.sh.chans == s.sh.chans && At(s', c, Waiting)
    decreases Distance(s.calls[c])
  {
    if s.calls[c].Waiting? {
      return [];
    }
    var e := NextCallEvent(s.calls[c], c);
    var rest := BringToReceive(Step(s, e), c);
    Runs.One(Step, s, Unrestricted, e);
    Runs.AfterConcat(Step, s, [e], rest);
    es := [e] + rest;
  }

  /** A full channel whose call can still receive is emptied by that call, and the reader goes on. */
  lemma CallUnblocksReader(s: State) returns (es: seq<Event>)
    requires Inv(s) && Blocked(s) && !Deaf(s, s.reader.ch)
    ensures Runs.After(Step, s, es).reader == Idle
  {
    var c := s.reader.ch;
    assert TableAt(s, c);
    es := BringToReceive(s, c);
    var s1 := Runs.After(Step, s, es);
    var q := s.sh.chans[c][0];
    assert q in s.sh.chans[c];
    assert FateFits(Entry(q, Delivered(c)));
    Runs.Extend(Step, s, es, ReplyTaken(c));
    Runs.Extend(Step, s, es + [ReplyTaken(c)], ReaderPushes);
    es := es + [ReplyTaken(c)] + [ReaderPushes];
  }

  /**
   The reader, once blocked in a state some run reaches, is stuck for ever exactly when the call
   the reply is for has stopped listening.  Stop does not free it either.
   */
  lemma StuckExactlyWhenDeaf(run: seq<Event>)
    requires Blocked(After(run))
    ensures StuckForever(After(run)) <==> Deaf(After(run), After(run).reader.ch)
  {
    var s := After(run);
    InvAlways(run);
    if Deaf(s, s.reader.ch) {
      forall es: seq<Event>
        ensures Runs.After(Step, s, es).reader == s.reader
      {
        DeafStaysStuck(s, es);
      }
    } else {
      var es := CallUnblocksReader(s);
      assert Runs.After(Step, s, es).reader != s.reader;
    }
  }

  /** One more event of a run that keeps to a rule. */
  lemma Next(rule: (State, Event) -> bool, s: State, e: Event, s': State)
    requires Runs.Reaches(Step, Init(), rule, s) && rule(s, e) && Step(s, e) == s'
    ensures Runs.Reaches(Step, Init(), rule, s')
  {
    Runs.ReachesNext(Step, Init(), rule, s, e);
  }

  /** A single call, registered, at `pc`. */
  function OneCall(pc: CallPc, requests: multiset<int>): State {
    Init().(sh := Shared(1, map[1 := 1], map[1 := []], [], false), calls := map[1 := pc], requests := requests)
  }

  /** That call waiting, with what the reader and the node have done since. */
  function OneWaiting(
    requests: multiset<int>, reader: ReaderPc, emitted: seq<Frame>, unread: set<nat>, read: seq<Packet>,
    inChannel: seq<Packet>)
    : State
  {
    OneCall(Waiting, requests).(
      sh := Shared(1, map[1 := 1], map[1 := inChannel], [], false), reader := reader, emitted := emitted,
      unread := unread, received := read, log := if inChannel == [] then [] else [Entry(inChannel[0], Delivered(1))])
  }

  /** The rule lets the reader and the contexts do as they like, and the node answer call 1 twice. */
  ghost predicate AllowsTwoReplies(rule: (State, Event) -> bool, requests: multiset<int>, reply: Frame) {
    && (forall s: State, e: Event :: !e.NodeEmits? && !e.SendRefused? && !e.SendBreaks? ==> rule(s, e))
    && rule(OneWaiting(requests, Idle, [], {}, [], []), NodeEmits(reply))
    && rule(OneWaiting(requests, Idle, [reply], {0}, [], []), NodeEmits(reply))
  }

  /** The run that leaves one reply in call 1's channel and a second one stuck, once the call is cancelled. */
  lemma CancelledCallStopsTheReader(rule: (State, Event) -> bool, requests: multiset<int>, reply: Frame)
    returns (stuck: State)
    requires IsReplyTo(reply, 1) && AllowsTwoReplies(rule, requests, reply)
    requires Runs.Reaches(Step, Init(), rule, OneCall(Waiting, requests))
    ensures Runs.Reaches(Step, Init(), rule, stuck) && StuckForever(stuck)
  {
    var p, q := Packet(0, reply), Packet(1, reply);
    ReachTwoReplies(rule, requests, reply);
    ReachSecondPush(rule, requests, reply);
    var s := OneWaiting(requests, Pushing(q, 1), [reply, reply], {}, [p, q], [p]);
    stuck := Goto(s, 1, Closing(Cancelled));
    Next(rule, s, ContextEnds(1), stuck);
    var run: seq<Event> :| Runs.Abides(Step, Init(), rule, run) && Runs.After(Step, Init(), run) == stuck;
    StuckExactlyWhenDeaf(run);
  }

  lemma ReachTwoEmitted(rule: (State, Event) -> bool, requests: multiset<int>, reply: Frame)
    requires AllowsTwoReplies(rule, requests, reply) && Runs.Reaches(Step, Init(), rule, OneCall(Waiting, requests))
    ensures Runs.Reaches(Step, Init(), rule, OneWaiting(requests, Idle, [reply, reply], {0, 1}, [], []))
  {
    var sent0 := OneWaiting(requests, Idle, [], {}, [], []);
    var sent1 := OneWaiting(requests, Idle, [reply], {0}, [], []);
    assert sent0 == OneCall(Waiting, requests);
    Next(rule, sent0, NodeEmits(reply), sent1);
    Next(rule, sent1, NodeEmits(reply), OneWaiting(requests, Idle, [reply, reply], {0, 1}, [], []));
  }

  lemma ReachFirstPush(rule: (State, Event) -> bool, requests: multiset<int>, reply: Frame)
    requires IsReplyTo(reply, 1) && AllowsTwoReplies(rule, requests, reply)
    requires Runs.Reaches(Step, Init(), rule, OneWaiting(requests, Idle, [reply, reply], {0, 1}, [], []))
    ensures var p := Packet(0, reply);
            Runs.Reaches(Step, Init(), rule, OneWaiting(requests, Pushing(p, 1), [reply, reply], {1}, [p], []))
  {
    var p := Packet(0, reply);
    var holding := OneWaiting(requests, Holding(p), [reply, reply], {1}, [p], []);
    Next(rule, OneWaiting(requests, Idle, [reply, reply], {0, 1}, [], []), ReaderReceives(0), holding);
    Next(rule, holding, ReaderRoutes, OneWaiting(requests, Pushing(p, 1), [reply, reply], {1}, [p], []));
  }

  lemma PushLands(requests: multiset<int>, reply: Frame)
    ensures var p := Packet(0, reply);
            Step(OneWaiting(requests, Pushing(p, 1), [reply, reply], {1}, [p], []), ReaderPushes)
            == OneWaiting(requests, Idle, [reply, reply], {1}, [p], [p])
  {
    var p := Packet(0, reply);
    var pushing := OneWaiting(requests, Pushing(p, 1), [reply, reply], {1}, [p], []);
    var s := Step(pushing, ReaderPushes);
    assert HasRoom(pushing.sh, 1) && Enabled(pushing, ReaderPushes);
    assert pushing.sh.chans[1] + [p] == [p];
    assert s.sh.chans == map[1 := [p]] && s.log == [Entry(p, Delivered(1))];
  }

  /** One reply is in the channel, the other on the wire. */
  lemma ReachTwoReplies(rule: (State, Event) -> bool, requests: multiset<int>, reply: Frame)
    requires IsReplyTo(reply, 1) && AllowsTwoReplies(rule, requests, reply)
    requires Runs.Reaches(Step, Init(), rule, OneCall(Waiting, requests))
    ensures var p := Packet(0, reply);
            Runs.Reaches(Step, Init(), rule, OneWaiting(requests, Idle, [reply, reply], {1}, [p], [p]))
  {
    var p := Packet(0, reply);
    ReachTwoEmitted(rule, requests, reply);
    ReachFirstPush(rule, requests, reply);
    PushLands(requests, reply);
    Next(rule, OneWaiting(requests, Pushing(p, 1), [reply, reply], {1}, [p], []), ReaderPushes,
         OneWaiting(requests, Idle, [reply, reply], {1}, [p], [p]));
  }

  lemma ReachSecondPush(rule: (State, Event) -> bool, requests: multiset<int>, reply: Frame)
    requires IsReplyTo(reply, 1) && AllowsTwoReplies(rule, requests, reply)
    requires var p := Packet(0, reply);
             Runs.Reaches(Step, Init(), rule, OneWaiting(requests, Idle, [reply, reply], {1}, [p], [p]))
    ensures var p, q := Packet(0, reply), Packet(1, reply);
            Runs.Reaches(Step, Init(), rule, OneWaiting(requests, Pushing(q, 1), [reply, reply], {}, [p, q], [p]))
  {
    var p, q := Packet(0, reply), Packet(1, reply);
    var holding := OneWaiting(requests, Holding(q), [reply, reply], {}, [p, q], [p]);
    Next(rule, OneWaiting(requests, Idle, [reply, reply], {1}, [p], [p]), ReaderReceives(1), holding);
    Next(rule, holding, ReaderRoutes, OneWaiting(requests, Pushing(q, 1), [reply, reply], {}, [p, q], [p]));
  }

  /** The node answers only what was sent, and a failed Send hands nothing over. */
  predicate AnswersOnlySentOfWholeSends(s: State, e: Event) {
    AnswersOnlySent(s, e) && FailedSendDeliversNothing(s, e)
  }

  /**
   Both halves of the assumption are needed.  A node that answers one request twice while its call is
   cancelled leaves the reader stuck for ever, although no Send fails.
   */
  lemma DuplicateReplyStopsTheReader() returns (stuck: State)
    ensures Runs.Reaches(Step, Init(), AnswersOnlySentOfWholeSends, stuck) && StuckForever(stuck)
  {
    var rule := AnswersOnlySentOfWholeSends;
    ReachReady(rule);
    ReachHandedOver(rule, multiset{});
    ReachWaiting(rule, multiset{1});
    stuck := CancelledCallStopsTheReader(rule, multiset{1}, Envelope(Some(1), "", "{}", "", None));
  }

  /** The rule lets calls run as long as their sends succeed. */
  ghost predicate AllowsCalls(rule: (State, Event) -> bool) {
    forall s: State, e: Event :: IsCallEvent(e) && !e.SendRefused? && !e.SendBreaks? ==> rule(s, e)
  }

  lemma ReachReady(rule: (State, Event) -> bool)
    requires AllowsCalls(rule)
    ensures Runs.Reaches(Step, Init(), rule, OneCall(Ready, multiset{}))
  {
    Runs.ReachesStart(Step, Init(), rule);
    var started := Init().(sh := Shared(1, map[], map[], [], false), calls := map[1 := Allocated]);
    Next(rule, Init(), CallStarts, started);
    Next(rule, started, CallRegisters(1), OneCall(Ready, multiset{}));
  }

  lemma ReachHandedOver(rule: (State, Event) -> bool, requests: multiset<int>)
    requires AllowsCalls(rule) && Runs.Reaches(Step, Init(), rule, OneCall(Ready, requests))
    ensures Runs.Reaches(Step, Init(), rule, OneCall(Sending(true), requests + multiset{1}))
  {
    Next(rule, OneCall(Ready, requests), SendBegins(1), OneCall(Sending(false), requests));
    Next(rule, OneCall(Sending(false), requests), RequestHandedOver(1), OneCall(Sending(true), requests + multiset{1}));
  }

  lemma ReachWaiting(rule: (State, Event) -> bool, requests: multiset<int>)
    requires AllowsCalls(rule) && Runs.Reaches(Step, Init(), rule, OneCall(Sending(true), requests))
    ensures Runs.Reaches(Step, Init(), rule, OneCall(Waiting, requests))
  {
    Next(rule, OneCall(Sending(true), requests), SendSucceeds(1), OneCall(Waiting, requests));
  }

  /** And so does a node that answers every request once, when a Send that had handed one over is retried. */
  lemma DeliveredRetryStopsTheReader() returns (stuck: State)
    ensures Runs.Reaches(Step, Init(), AnswersOnce, stuck) && StuckForever(stuck)
  {
    var rule := AnswersOnce;
    ReachReady(rule);
    ReachHandedOver(rule, multiset{});
    Next(rule, OneCall(Sending(true), multiset{1}), SendRefused(1), OneCall(Backoff, multiset{1}));
    Next(rule, OneCall(Backoff, multiset{1}), RetryTimer(1), OneCall(Ready, multiset{1}));
    ReachHandedOver(rule, multiset{1});
    ReachWaiting(rule, multiset{1, 1});
    var reply := Envelope(Some(1), "", "{}", "", None);
    OneReply(reply);
    stuck := CancelledCallStopsTheReader(rule, multiset{1, 1}, reply);
  }

  lemma OneReply(reply: Frame)
    requires IsReplyTo(reply, 1)
    ensures RepliesTo([], 1) == 0 && RepliesTo([reply], 1) == 1
  {
    assert [reply][..0] == [];
  }

  /** Call 1, registered too late: the reader has been and gone. */
  function Late(pc: CallPc, requests: multiset<int>, reply: Frame): State {
    OneCall(pc, requests).(
      emitted := [reply], received := [Packet(0, reply)], log := [Entry(Packet(0, reply), Unmatched)])
  }

  lemma ReachUnmatched(reply: Frame)
    requires IsReplyTo(reply, 1)
    ensures var p := Packet(0, reply);
            Runs.Reaches(Step, Init(), Unrestricted,
                         Init().(emitted := [reply], received := [p], log := [Entry(p, Unmatched)]))
  {
    var p := Packet(0, reply);
    var emitted := Init().(emitted := [reply], unread := {0});
    var holding := Init().(emitted := [reply], received := [p], reader := Holding(p));
    Runs.ReachesStart(Step, Init(), Unrestricted);
    Next(Unrestricted, Init(), NodeEmits(reply), emitted);
    Next(Unrestricted, emitted, ReaderReceives(0), holding);
    Next(Unrestricted, holding, ReaderRoutes,
         Init().(emitted := [reply], received := [p], log := [Entry(p, Unmatched)]));
  }

  lemma ReachLate(reply: Frame)
    requires IsReplyTo(reply, 1)
    ensures Runs.Reaches(Step, Init(), Unrestricted, Late(Ready, multiset{}, reply))
  {
    var p := Packet(0, reply);
    var unmatched := Init().(emitted := [reply], received := [p], log := [Entry(p, Unmatched)]);
    var started := unmatched.(sh := Shared(1, map[], map[], [], false), calls := map[1 := Allocated]);
    ReachUnmatched(reply);
    Next(Unrestricted, unmatched, CallStarts, started);
    Next(Unrestricted, started, CallRegisters(1), Late(Ready, multiset{}, reply));
  }

  /** A reply that overtakes its registration is dropped: the call waits, and nothing is left to wake it. */
  lemma EarlyReplyIsLost() returns (s: State)
    ensures Runs.Reaches(Step, Init(), Unrestricted, s)
    ensures At(s, 1, Waiting) && s.reader == Idle && s.unread == {} && !HasReply(s.sh, 1)
    ensures |s.log| == 1 && IsReplyTo(s.log[0].packet.frame, 1) && s.log[0].fate == Unmatched
  {
    var reply := Envelope(Some(1), "", "{}", "", None);
    ReachLate(reply);
    var sending, sent := Late(Sending(false), multiset{}, reply), Late(Sending(true), multiset{1}, reply);
    s := Late(Waiting, multiset{1}, reply);
    Next(Unrestricted, Late(Ready, multiset{}, reply), SendBegins(1), sending);
    Next(Unrestricted, sending, RequestHandedOver(1), sent);
    Next(Unrestricted, sent, SendSucceeds(1), s);
  }

  /** A frame with neither id nor method is discarded with the echoes, which have both. */
  lemma EmptyFrameIsDiscarded() returns (s: State)
    ensures Runs.Reaches(Step, Init(), Unrestricted, s)
    ensures |s.log| == 1 && s.log[0].fate == Ambiguous
    ensures var f := s.log[0].packet.frame; f.Envelope? && f.id.None? && f.name == ""
  {
    var frame := Envelope(None, "", "{}", "", None);
    var p := Packet(0, frame);
    var emitted := Init().(emitted := [frame], unread := {0});
    var holding := Init().(emitted := [frame], received := [p], reader := Holding(p));
    s := Init().(emitted := [frame], received := [p], log := [Entry(p, Ambiguous)]);
    Runs.ReachesStart(Step, Init(), Unrestricted);
    Next(Unrestricted, Init(), NodeEmits(frame), emitted);
    Next(Unrestricted, emitted, ReaderReceives(0), holding);
    Next(Unrestricted, holding, ReaderRoutes, s);
  }
}
