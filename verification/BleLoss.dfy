/**
 The BLE link itself beside the transport's flags (transport/ble.go): when the stack makes and loses
 it, and the reports of its loss that the stack still owes the transport.
 */
module BleLoss {
  import opened BleLink
  import opened Callbacks
  import opened BleRuns
  import Runs

  /** `linked` are the threads whose dial has made the link but not yet installed it. */
  datatype Radio = Radio(ble: BleRuns.State, up: bool, owed: nat, linked: set<nat>)

  /** The stack's own events, and those of the transport; DeviceDown and DeviceUp are its reports. */
  datatype RadioEvent = Links(t: nat) | LinkLost | Acts(event: BleRuns.Event)

  function Start(hasToken: bool): Radio {
    Radio(BleRuns.Init(hasToken), false, 0, {})
  }

  /** The link goes, whoever ends it; the stack is to report it. */
  function Lose(r: Radio): Radio {
    if r.up then r.(up := false, owed := r.owed + 1) else r
  }

  /** The transport takes the step. */
  function Act(r: Radio, e: BleRuns.Event): Radio {
    r.(ble := BleRuns.Step(r.ble, e))
  }

  function Move(r: Radio, e: RadioEvent): Radio {
    match e
    case Links(t) => if IsDialling(r.ble, t) then r.(up := true, linked := r.linked + {t}) else r
    case LinkLost => Lose(r)
    case Acts(DeviceDown) => if r.owed == 0 then r else Act(r, DeviceDown).(owed := r.owed - 1)
    case Acts(DeviceUp) => Act(r, DeviceUp).(up := true)
    case Acts(DialInstalls(t)) =>
      if t in r.linked then Act(r, DialInstalls(t)).(linked := r.linked - {t}) else r
    case Acts(DialFails(t)) =>
      if !IsDialling(r.ble, t) then r
      else Act(if t in r.linked then Lose(r) else r, DialFails(t)).(linked := r.linked - {t})
    case Acts(CloseCalled) => Act(if r.ble.link.connected then Lose(r) else r, CloseCalled)
    case Acts(AuthCleansUp(t)) =>
      Act(if t < |r.ble.threads| && r.ble.threads[t].pc.AuthFailed? then Lose(r) else r, AuthCleansUp(t))
    case Acts(other) => Act(r, other)
  }

  predicate AnyMove(r: Radio, e: RadioEvent) {
    true
  }

  /** What is proved of the flags in all runs of the transport holds here too. */
  lemma {:induction false} FlagsAreARun(hasToken: bool, es: seq<RadioEvent>)
    ensures Runs.Reaches(Step, Init(hasToken), Unrestricted, Runs.After(Move, Start(hasToken), es).ble)
  {
    if |es| == 0 {
      Runs.ReachesStart(Step, Init(hasToken), Unrestricted);
    } else {
      var front, e := es[..|es| - 1], es[|es| - 1];
      FlagsAreARun(hasToken, front);
      var r := Runs.After(Move, Start(hasToken), front);
      if e.Acts? {
        Runs.ReachesNext(Step, Init(hasToken), Unrestricted, r.ble, e.event);
      }
      MoveIsStep(r, e);
    }
  }

  lemma MoveIsStep(r: Radio, e: RadioEvent)
    ensures Move(r, e).ble == r.ble || (e.Acts? && Move(r, e).ble == Step(r.ble, e.event))
  {
  }

  // ---- the flag and the link ----

  /** The link is there, or its loss is still to be reported. */
  predicate IsWatched(r: Radio) {
    r.up || r.owed > 0
  }

  /** A dial installs a link that was lost, and reported lost, before the transport called itself connected. */
  predicate InstallsLostLink(r: Radio, e: RadioEvent) {
    && e.Acts? && e.event.DialInstalls? && IsDialling(r.ble, e.event.t) && e.event.t in r.linked
    && !IsWatched(r)
  }

  predicate InstallsNothingLost(r: Radio, e: RadioEvent) {
    !InstallsLostLink(r, e)
  }

  /** A transport that calls itself connected has its link, or will be told of its loss. */
  predicate IsHonest(r: Radio) {
    r.ble.link.connected ==> IsWatched(r)
  }

  lemma HonestStep(r: Radio, e: RadioEvent)
    requires IsHonest(r)
    ensures IsHonest(Move(r, e)) <==> !InstallsLostLink(r, e)
  {
  }

  /**
   In every run in which no lost link is installed the flag is honest; and the next event keeps it so
   exactly if it does not install a link whose loss was reported too early to be heeded.
   */
  lemma HonestExactly(hasToken: bool, es: seq<RadioEvent>, e: RadioEvent)
    requires Runs.Abides(Move, Start(hasToken), InstallsNothingLost, es)
    ensures var r := Runs.After(Move, Start(hasToken), es);
            IsHonest(r) && (IsHonest(Move(r, e)) <==> !InstallsLostLink(r, e))
  {
    forall r, e | IsHonest(r) && InstallsNothingLost(r, e)
      ensures IsHonest(Move(r, e))
    {
      HonestStep(r, e);
    }
    Runs.InvariantHolds(Move, Start(hasToken), InstallsNothingLost, IsHonest, es);
    HonestStep(Runs.After(Move, Start(hasToken), es), e);
  }

  // ---- who looks after the link ----

  /** The link is there or its loss will be acted on, or a loop is to bring it back, or it was closed. */
  predicate LookedAfter(r: Radio) {
    (r.ble.link.connected && IsWatched(r)) || r.ble.link.reconnecting || r.ble.link.closing
  }

  /** A loop past its connect ends the reconnecting, and the link it made is gone or not known of. */
  predicate EndsInVain(r: Radio, e: RadioEvent) {
    && e.Acts? && e.event.ConnectDone? && e.event.t < |r.ble.threads|
    && r.ble.threads[e.event.t].loop && r.ble.threads[e.event.t].pc.Connected?
    && !(r.ble.link.connected && IsWatched(r)) && !r.ble.link.closing
  }

  /**
   Every event leaves the link looked after, except exactly a loop that ends in vain, be the flag down
   or up over a lost link, and a Connect that takes over a transport nobody is reconnecting.
   */
  lemma LookedAfterExactly(r: Radio, e: RadioEvent)
    requires LookedAfter(r)
    ensures LookedAfter(Move(r, e)) <==> !EndsInVain(r, e) && !(e.Acts? && TakesOver(r.ble, e.event))
  {
    if e.Acts? && (e.event.ConnectDone? || e.event.ConnectStarts?) {
      FlagsMove(r, e);
    } else if r.ble.link.reconnecting || r.ble.link.closing {
      FlagsStay(r.ble, if e.Acts? then e.event else DeviceUp);
      MoveIsStep(r, e);
    } else {
      ConnectedStays(r, e);
    }
  }

  lemma FlagsMove(r: Radio, e: RadioEvent)
    requires e.Acts? && (e.event.ConnectDone? || e.event.ConnectStarts?)
    ensures Move(r, e) == r.(ble := Step(r.ble, e.event)) && Step(r.ble, e.event).link.connected == r.ble.link.connected
  {
  }

  /** Only a loop that is done, or a Connect, leaves a transport neither reconnecting nor closing. */
  lemma FlagsStay(s: BleRuns.State, e: BleRuns.Event)
    requires (s.link.reconnecting || s.link.closing) && !e.ConnectDone? && !e.ConnectStarts?
    ensures Step(s, e).link.reconnecting || Step(s, e).link.closing
  {
  }

  /** A connection that is watched stays so, or its loss is acted on. */
  lemma ConnectedStays(r: Radio, e: RadioEvent)
    requires r.ble.link.connected && IsWatched(r) && !r.ble.link.reconnecting && !r.ble.link.closing
    requires e.Acts? ==> !e.event.ConnectDone? && !e.event.ConnectStarts?
    ensures LookedAfter(Move(r, e))
  {
    HonestStep(r, e);
    if e.Acts? && !Move(r, e).ble.link.connected {
      LossIsActedOn(r.ble, e.event);
      MoveIsStep(r, e);
    }
  }

  lemma LossIsActedOn(s: BleRuns.State, e: BleRuns.Event)
    requires s.link.connected && !Step(s, e).link.connected
    ensures Step(s, e).link.reconnecting || Step(s, e).link.closing
  {
  }

  // ---- the run ----

  lemma Next(r: Radio, e: RadioEvent, r': Radio)
    requires Runs.Reaches(Move, Start(false), AnyMove, r) && Move(r, e) == r'
    ensures Runs.Reaches(Move, Start(false), AnyMove, r')
  {
    Runs.ReachesNext(Move, Start(false), AnyMove, r, e);
  }

  /** A caller has connected. */
  lemma ReachConnected()
    ensures Runs.Reaches(Move, Start(false), AnyMove,
                         Radio(Caller(Link(true, false, false, 0, multiset{}), Done), true, 0, {}))
  {
    var idle, open := NewLink(), Link(true, false, false, 0, multiset{});
    CallerSteps(idle);
    CallerSteps(open);
    assert Install(idle) == open;
    Runs.ReachesStart(Move, Start(false), AnyMove);
    Next(Start(false), Acts(ConnectStarts), Radio(Caller(idle, Dialling), false, 0, {}));
    Next(Radio(Caller(idle, Dialling), false, 0, {}), Links(0), Radio(Caller(idle, Dialling), true, 0, {0}));
    Next(Radio(Caller(idle, Dialling), true, 0, {0}), Acts(DialInstalls(0)),
         Radio(Caller(open, Pc.Connected), true, 0, {}));
    Next(Radio(Caller(open, Pc.Connected), true, 0, {}), Acts(ConnectDone(0)), Radio(Caller(open, Done), true, 0, {}));
  }

  /** The link is lost, and the loop dials. */
  lemma ReachRedialling()
    ensures Runs.Reaches(Move, Start(false), AnyMove,
                         Radio(LostOnce(LOST, Dialling), false, 0, {}))
  {
    var open, lost := Link(true, false, false, 0, multiset{}), LOST;
    ReachConnected();
    Next(Radio(Caller(open, Done), true, 0, {}), LinkLost, Radio(Caller(open, Done), false, 1, {}));
    assert Step(Caller(open, Done), DeviceDown) == LostOnce(lost, AtTop);
    Next(Radio(Caller(open, Done), false, 1, {}), Acts(DeviceDown), Radio(LostOnce(lost, AtTop), false, 0, {}));
    Next(Radio(LostOnce(lost, AtTop), false, 0, {}), Acts(LoopChecks(1)),
         Radio(LostOnce(lost, Dialling), false, 0, {}));
  }

  /** The dial makes the link, which is lost at once: the report finds `connected` false and is dropped. */
  lemma ReachLostWhileDialling()
    ensures Runs.Reaches(Move, Start(false), AnyMove,
                         Radio(LostOnce(LOST, Dialling), false, 0, {1}))
  {
    var dialling := LostOnce(LOST, Dialling);
    ReachRedialling();
    Next(Radio(dialling, false, 0, {}), Links(1), Radio(dialling, true, 0, {1}));
    Next(Radio(dialling, true, 0, {1}), LinkLost, Radio(dialling, false, 1, {1}));
    Next(Radio(dialling, false, 1, {1}), Acts(DeviceDown), Radio(dialling, false, 0, {1}));
  }

  predicate NoCloseNoUp(r: Radio, e: RadioEvent) {
    e != Acts(CloseCalled) && e != Acts(DeviceUp)
  }

  /** Connected by its flags, over a dead link nobody will report on, and with nobody left to act. */
  ghost predicate IsForsaken(r: Radio) {
    && r.ble.link.connected && !r.ble.link.reconnecting && !r.ble.link.closing && !IsWatched(r)
    && forall t :: 0 <= t < |r.ble.threads| ==> r.ble.threads[t].pc.Done?
  }

  lemma ForsakenStep(r: Radio, e: RadioEvent)
    requires IsForsaken(r) && NoCloseNoUp(r, e)
    ensures IsForsaken(Move(r, e))
  {
    if e.Links? {
      assert !IsDialling(r.ble, e.t);
    } else if e.Acts? && !e.event.DeviceDown? {
      IdleStep(r.ble, e.event);
    }
  }

  /** With nobody left to act only a report or a Close does anything. */
  lemma IdleStep(s: BleRuns.State, e: BleRuns.Event)
    requires s.link.connected && forall t :: 0 <= t < |s.threads| ==> s.threads[t].pc.Done?
    requires !e.DeviceUp? && !e.DeviceDown? && !e.CloseCalled?
    ensures Step(s, e) == s
  {
  }

  lemma ForsakenStays(r: Radio, es: seq<RadioEvent>)
    requires IsForsaken(r) && Runs.Abides(Move, r, NoCloseNoUp, es)
    ensures IsForsaken(Runs.After(Move, r, es))
  {
    forall r, e | IsForsaken(r) && NoCloseNoUp(r, e)
      ensures IsForsaken(Move(r, e))
    {
      ForsakenStep(r, e);
    }
    Runs.InvariantHolds(Move, r, NoCloseNoUp, IsForsaken, es);
  }

  /**
   A link lost between its making and its installing can stay lost: the transport is connected by its
   flags, over a dead link, and stays so in every run without a Close or a report that the link is up.
   A new Connect does not help either: it is refused.
   */
  lemma EarlyLossGoesUnnoticed() returns (r: Radio)
    ensures Runs.Reaches(Move, Start(false), AnyMove, r) && IsForsaken(r)
    ensures r.ble.trace == [OnDisconnect, OnReconnect]
    ensures forall es: seq<RadioEvent> :: Runs.Abides(Move, r, NoCloseNoUp, es) ==> IsForsaken(Runs.After(Move, r, es))
  {
    var lost, taken := LOST, Link(true, true, false, 1, multiset{0});
    var done := EndReconnecting(taken);
    ReachLostWhileDialling();
    InstallSteps(lost, taken);
    assert lost.closes[0] == 1;
    Next(Radio(LostOnce(lost, Dialling), false, 0, {1}), Acts(DialInstalls(1)),
         Radio(LostOnce(taken, Pc.Connected), false, 0, {}));
    r := Radio(Single(done, Done, [OnDisconnect, OnReconnect]), false, 0, {});
    Next(Radio(LostOnce(taken, Pc.Connected), false, 0, {}), Acts(ConnectDone(1)), r);
    forall es: seq<RadioEvent> | Runs.Abides(Move, r, NoCloseNoUp, es)
      ensures IsForsaken(Runs.After(Move, r, es))
    {
      ForsakenStays(r, es);
    }
  }

  lemma InstallSteps(lost: Link, taken: Link)
    ensures Step(LostOnce(lost, Dialling), DialInstalls(1)) == LostOnce(Install(lost), Pc.Connected)
    ensures Step(LostOnce(taken, Pc.Connected), ConnectDone(1))
            == Single(EndReconnecting(taken), Done, [OnDisconnect, OnReconnect])
  {
  }
}
