/** What every interleaving of the multiplexer keeps. */
module MultiplexerInvariant {
  import opened ProtocolMemory
  import opened Multiplexer
  import Runs

  /** The calls that have started are exactly 1, ..., nextID: no id is used twice. */
  ghost predicate IdsInv(s: State) {
    0 <= s.sh.nextID && forall id :: id in s.calls <==> 1 <= id <= s.sh.nextID
  }

  /** `id` is in the table exactly while its call is registered and not returned, with its own channel. */
  ghost predicate TableAt(s: State, id: int) {
    && (id in s.sh.pending <==> id in s.calls && IsRegistered(s.calls[id]))
    && (id in s.sh.pending ==> s.sh.pending[id] == id)
    && (id in s.sh.chans <==> id in s.calls && HasChannel(s.calls[id]))
    && (id in s.calls && s.calls[id].Closing? ==> s.calls[id].outcome != MarshalFailed)
  }

  ghost predicate TableInv(s: State) {
    forall id {:trigger id in s.sh.pending} {:trigger id in s.sh.chans} {:trigger id in s.calls} :: TableAt(s, id)
  }

  /** The frames read are those dealt with and the one in hand, each an emitted frame read once. */
  ghost predicate ReadInv(s: State) {
    && s.received == Packets(s.log) + Hand(s)
    && (forall n :: n in s.unread ==> n < |s.emitted|)
    && (forall p :: p in s.received ==>
          p.serial < |s.emitted| && s.emitted[p.serial] == p.frame && p.serial !in s.unread)
    && (forall i, j :: 0 <= i < j < |s.received| ==> s.received[i].serial != s.received[j].serial)
  }

  /** A reply channel holds at most one packet, one that was delivered to it. */
  ghost predicate ChannelAt(s: State, c: int) {
    c in s.sh.chans ==>
      |s.sh.chans[c]| <= REPLY_CAPACITY && forall p :: p in s.sh.chans[c] ==> Entry(p, Delivered(c)) in s.log
  }

  ghost predicate ChannelInv(s: State) {
    forall c {:trigger c in s.sh.chans} :: ChannelAt(s, c)
  }

  /** The packet delivered to call `c` is in its channel, or `c` has taken it. */
  ghost predicate Holds(s: State, c: int, p: Packet) {
    c in s.sh.chans && (p in s.sh.chans[c] || (c in s.consumed && s.consumed[c] == p))
  }

  /** The frame ended as a frame of its kind can end. */
  ghost predicate FateFits(e: Entry) {
    match e.fate
    case Undecodable => e.packet.frame.Malformed?
    case Delivered(c) => IsReplyTo(e.packet.frame, c)
    case Unmatched => IsResponse(e.packet.frame)
    case Queued => IsNotification(e.packet.frame)
    case QueueFull(waiting) => IsNotification(e.packet.frame) && waiting == NOTIFY_CAPACITY
    case Ambiguous =>
      e.packet.frame.Envelope? && !IsResponse(e.packet.frame) && !IsNotification(e.packet.frame)
  }

  ghost predicate LogInv(s: State) {
    && (forall e :: e in s.log ==> FateFits(e))
    && (forall e :: e in s.log && e.fate.Delivered? ==> Holds(s, e.fate.ch, e.packet))
  }

  /** The reader pushes only into the channel of the call the frame answers. */
  ghost predicate ReaderInv(s: State) {
    s.reader.Pushing? ==> IsReplyTo(s.reader.packet.frame, s.reader.ch) && s.reader.ch in s.sh.chans
  }

  /** Call `id` took a reply exactly if it ends with one, and it ends with what that reply says. */
  ghost predicate ConsumedAt(s: State, id: int) {
    && (id in s.consumed <==> id in s.calls && IsAnswered(s.calls[id]))
    && (id in s.consumed ==>
          && Entry(s.consumed[id], Delivered(id)) in s.log
          && s.consumed[id].frame.Envelope?
          && s.calls[id].outcome == OutcomeOf(s.consumed[id].frame))
  }

  ghost predicate ConsumedInv(s: State) {
    forall id {:trigger id in s.consumed} {:trigger id in s.calls} :: ConsumedAt(s, id)
  }

  /** What got into the queue has been taken, in order, or is still in it. */
  ghost predicate QueueInv(s: State) {
    Accepted(s.log) == s.taken + s.sh.notifyCh && |s.sh.notifyCh| <= NOTIFY_CAPACITY
  }

  ghost predicate Inv(s: State) {
    && IdsInv(s) && TableInv(s) && ReadInv(s) && ChannelInv(s)
    && LogInv(s) && ReaderInv(s) && ConsumedInv(s) && QueueInv(s)
  }

  /** The events of a Call; the others belong to the reader, the loop, the node and Stop. */
  predicate IsCallEvent(e: Event) {
    && !e.NodeEmits? && !e.ReaderReceives? && !e.ReaderRoutes? && !e.ReaderPushes? && !e.ReaderExits?
    && !e.LoopTakes? && !e.StopCalled?
  }

  /** A Call touches neither the reader nor what it has read. */
  lemma CallEventFrame(s: State, e: Event)
    requires IsCallEvent(e)
    ensures var s' := Step(s, e);
            && s'.reader == s.reader && s'.log == s.log && s'.received == s.received && s'.emitted == s.emitted
            && s'.unread == s.unread && s'.taken == s.taken && s'.sh.notifyCh == s.sh.notifyCh
  {
  }

  /** Nothing but a Call moves a call, registers it or gives it a reply. */
  lemma OtherEventFrame(s: State, e: Event)
    requires !IsCallEvent(e)
    ensures var s' := Step(s, e);
            && s'.calls == s.calls && s'.consumed == s.consumed && s'.requests == s.requests
            && s'.sh.nextID == s.sh.nextID && s'.sh.pending == s.sh.pending
            && s'.sh.chans.Keys == s.sh.chans.Keys
            && (!(e.ReaderPushes? && Enabled(s, e)) ==> s'.sh.chans == s.sh.chans)
  {
  }

  lemma StepKeepsIds(s: State, e: Event)
    requires IdsInv(s)
    ensures IdsInv(Step(s, e))
  {
  }

  lemma StepKeepsTableAt(s: State, e: Event, id: int)
    requires TableAt(s, id) && (id in s.calls ==> id <= s.sh.nextID)
    ensures TableAt(Step(s, e), id)
  {
    if !IsCallEvent(e) {
      OtherEventFrame(s, e);
    }
  }

  lemma StepKeepsTable(s: State, e: Event)
    requires IdsInv(s) && TableInv(s)
    ensures TableInv(Step(s, e))
  {
    forall id
      ensures TableAt(Step(s, e), id)
    {
      StepKeepsTableAt(s, e, id);
    }
  }

  /** Dealing with one more frame: it comes last in every reading of the log. */
  lemma LogGrows(log: seq<Entry>, e: Entry)
    ensures Packets(log + [e]) == Packets(log) + [e.packet]
    ensures Accepted(log + [e]) == Accepted(log) + (if e.fate.Queued? then [e.packet] else [])
    ensures Notifications(log + [e]) ==
            Notifications(log) + (if IsNotification(e.packet.frame) then [e.packet] else [])
  {
    assert (log + [e])[..|log + [e]| - 1] == log;
  }

  /** What Step does to the log: nothing, or one entry for the frame in hand. */
  lemma LogStep(s: State, e: Event)
    ensures Step(s, e).log == s.log || (Hand(s) != [] && Hand(Step(s, e)) == [] && Step(s, e).received == s.received
              && Step(s, e).log == s.log + [Entry(s.reader.packet, Step(s, e).log[|s.log|].fate)])
  {
  }

  lemma ReceivingKeepsRead(s: State, n: nat)
    requires ReadInv(s) && Enabled(s, ReaderReceives(n))
    ensures ReadInv(Step(s, ReaderReceives(n)))
  {
    var s' := Step(s, ReaderReceives(n));
    assert s'.received == Packets(s'.log) + Hand(s');
  }

  lemma EmittingKeepsRead(s: State, f: Frame)
    requires ReadInv(s)
    ensures ReadInv(Step(s, NodeEmits(f)))
  {
  }

  /** The other events read nothing: they leave the frames read, unread and emitted alone. */
  lemma OtherwiseNothingIsRead(s: State, e: Event)
    requires !e.NodeEmits? && !(e.ReaderReceives? && Enabled(s, e))
    ensures var s' := Step(s, e);
            s'.received == s.received && s'.emitted == s.emitted && s'.unread == s.unread
    ensures var s' := Step(s, e);
            s'.log == s.log ==> Hand(s') == Hand(s)
  {
  }

  lemma StepKeepsRead(s: State, e: Event)
    requires ReadInv(s)
    ensures ReadInv(Step(s, e))
  {
    if e.NodeEmits? {
      EmittingKeepsRead(s, e.frame);
    } else if e.ReaderReceives? && Enabled(s, e) {
      ReceivingKeepsRead(s, e.serial);
    } else {
      OtherwiseNothingIsRead(s, e);
      SettlingKeepsPackets(s, e);
    }
  }

  /** The frame that leaves the reader's hand is the one that joins the log. */
  lemma SettlingKeepsPackets(s: State, e: Event)
    requires !e.NodeEmits? && !(e.ReaderReceives? && Enabled(s, e))
    ensures Packets(Step(s, e).log) + Hand(Step(s, e)) == Packets(s.log) + Hand(s)
  {
    OtherwiseNothingIsRead(s, e);
    LogStep(s, e);
    var s' := Step(s, e);
    if s'.log != s.log {
      LogGrows(s.log, s'.log[|s.log|]);
      assert Hand(s) == [s.reader.packet] && Hand(s') == [];
    }
  }

  /** Pushing adds to one channel, routing to none. */
  lemma PushKeepsChannelAt(s: State, c: int)
    requires ChannelAt(s, c) && Enabled(s, ReaderPushes)
    ensures ChannelAt(Step(s, ReaderPushes), c)
  {
    var s' := Step(s, ReaderPushes);
    assert s'.log == s.log + [Entry(s.reader.packet, Delivered(s.reader.ch))];
  }

  lemma LogOnlyGrows(s: State, e: Event)
    ensures s.log <= Step(s, e).log
  {
  }

  lemma StepKeepsChannelAt(s: State, e: Event, c: int)
    requires ChannelAt(s, c)
    ensures ChannelAt(Step(s, e), c)
  {
    if e.ReaderPushes? && Enabled(s, e) {
      PushKeepsChannelAt(s, c);
    } else if !IsCallEvent(e) {
      OtherEventFrame(s, e);
      LogOnlyGrows(s, e);
    } else {
      CallEventFrame(s, e);
    }
  }

  lemma StepKeepsReader(s: State, e: Event)
    requires TableInv(s) && ReaderInv(s)
    ensures ReaderInv(Step(s, e))
  {
    if IsCallEvent(e) {
      CallEventFrame(s, e);
      CallsKeepChannels(s, e);
    } else {
      OtherEventFrame(s, e);
      if e.ReaderRoutes? && Enabled(s, e) && IsResponse(s.reader.packet.frame) {
        assert TableAt(s, s.reader.packet.frame.id.value);
      }
    }
  }

  lemma CallsKeepChannels(s: State, e: Event)
    ensures s.sh.chans.Keys <= Step(s, e).sh.chans.Keys
  {
  }

  lemma StepKeepsChannels(s: State, e: Event)
    requires Inv(s)
    ensures ChannelInv(Step(s, e)) && ReaderInv(Step(s, e))
  {
    StepKeepsReader(s, e);
    forall c
      ensures ChannelAt(Step(s, e), c)
    {
      assert ChannelAt(s, c);
      StepKeepsChannelAt(s, e, c);
    }
  }

  lemma StepKeepsFates(s: State, e: Event)
    requires Inv(s)
    ensures forall x :: x in Step(s, e).log ==> FateFits(x)
  {
    LogStep(s, e);
  }

  /** A delivered packet stays with its call: only that call's receive takes it out of the channel. */
  lemma StepKeepsHolds(s: State, e: Event, c: int, p: Packet)
    requires Inv(s)
    requires Entry(p, Delivered(c)) in s.log
    ensures Holds(Step(s, e), c, p)
  {
    assert Holds(s, c, p);
    if !IsCallEvent(e) {
      OtherEventFrame(s, e);
    } else if e.ReplyTaken? && Enabled(s, e) {
    } else if e.CallRegisters? && Enabled(s, e) {
    } else {
    }
  }

  lemma StepKeepsLog(s: State, e: Event)
    requires Inv(s)
    ensures LogInv(Step(s, e))
  {
    StepKeepsFates(s, e);
    LogStep(s, e);
    var s' := Step(s, e);
    forall x | x in s'.log && x.fate.Delivered?
      ensures Holds(s', x.fate.ch, x.packet)
    {
      if x in s.log {
        StepKeepsHolds(s, e, x.fate.ch, x.packet);
      } else {
        assert e.ReaderPushes?;
      }
    }
  }

  lemma StepKeepsConsumedAt(s: State, e: Event, id: int)
    requires ConsumedAt(s, id) && ChannelInv(s) && (id in s.calls ==> id <= s.sh.nextID)
    ensures ConsumedAt(Step(s, e), id)
  {
    if !IsCallEvent(e) {
      OtherEventFrame(s, e);
      assert forall x :: x in s.log ==> x in Step(s, e).log;
    } else if e.ReplyTaken? && Enabled(s, e) {
      assert s.sh.chans[e.id][0] in s.sh.chans[e.id];
    }
  }

  lemma StepKeepsConsumed(s: State, e: Event)
    requires IdsInv(s) && ChannelInv(s) && ConsumedInv(s)
    ensures ConsumedInv(Step(s, e))
  {
    forall id
      ensures ConsumedAt(Step(s, e), id)
    {
      StepKeepsConsumedAt(s, e, id);
    }
  }

  lemma RoutingKeepsQueue(s: State)
    requires QueueInv(s) && s.reader.Holding?
    ensures QueueInv(Step(s, ReaderRoutes))
  {
    var p := s.reader.packet;
    var routing := RouteOf(s.sh, p);
    if routing.Settled? {
      LogGrows(s.log, Entry(p, routing.fate));
    }
  }

  lemma PushingKeepsQueue(s: State)
    requires QueueInv(s) && Enabled(s, ReaderPushes)
    ensures QueueInv(Step(s, ReaderPushes))
  {
    LogGrows(s.log, Entry(s.reader.packet, Delivered(s.reader.ch)));
  }

  lemma StepKeepsQueue(s: State, e: Event)
    requires QueueInv(s)
    ensures QueueInv(Step(s, e))
  {
    if IsCallEvent(e) {
      CallEventFrame(s, e);
    } else if !Enabled(s, e) {
    } else if e.LoopTakes? {
      assert s.sh.notifyCh == [s.sh.notifyCh[0]] + s.sh.notifyCh[1..];
    } else if e.ReaderRoutes? {
      RoutingKeepsQueue(s);
    } else if e.ReaderPushes? {
      PushingKeepsQueue(s);
    }
  }

  lemma StepKeepsInv(s: State, e: Event)
    requires Inv(s)
    ensures Inv(Step(s, e))
  {
    StepKeepsIds(s, e);
    StepKeepsTable(s, e);
    StepKeepsRead(s, e);
    StepKeepsChannels(s, e);
    StepKeepsLog(s, e);
    StepKeepsConsumed(s, e);
    StepKeepsQueue(s, e);
  }

  lemma InitInv()
    ensures Inv(Init())
  {
    var s := Init();
    forall id
      ensures TableAt(s, id) && ChannelAt(s, id) && ConsumedAt(s, id)
    {
      assert id !in s.calls && id !in s.sh.pending && id !in s.sh.chans && id !in s.consumed;
    }
  }

  /** The invariant holds after every run, whatever the node, the calls and the scheduler do. */
  lemma InvAlways(es: seq<Event>)
    ensures Inv(After(es))
  {
    forall s, e | Inv(s) && Unrestricted(s, e)
      ensures Inv(Step(s, e))
    {
      StepKeepsInv(s, e);
    }
    InitInv();
    Runs.AnyRunAbides(Step, Init(), Unrestricted, es);
    Runs.InvariantHolds(Step, Init(), Unrestricted, Inv, es);
  }
}
