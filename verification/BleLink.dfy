/** The connection state of the BLE transport and its critical sections (transport/ble.go). */
module BleLink {
  import opened Wrappers
  import opened Callbacks

  /** `closeCh` is the number of the current close channel; `closes` counts the closes of each. */
  datatype Link = Link(connected: bool, reconnecting: bool, closing: bool, closeCh: nat, closes: multiset<nat>)

  datatype SendVerdict = Reconnecting | NotConnected | MayWrite

  function NewLink(): Link {
    Link(false, false, false, 0, multiset{})
  }

  predicate IsClosed(l: Link) {
    l.closes[l.closeCh] > 0
  }

  function CloseChannel(l: Link): Link {
    if IsClosed(l) then l else l.(closes := l.closes + multiset{l.closeCh})
  }

  predicate MayConnect(l: Link) {
    !l.connected
  }

  function BeginConnect(l: Link): Link {
    if MayConnect(l) then l.(closing := false) else l
  }

  /** connect has found the device: it is connected, with a close channel that is open. */
  function Install(l: Link): Link {
    l.(connected := true, closeCh := if IsClosed(l) then l.closeCh + 1 else l.closeCh)
  }

  /** The stack reports the link up.  The close channel is left as it is. */
  function LinkUp(l: Link): Link {
    l.(connected := true)
  }

  /** A reconnect loop is to be started for this disconnect. */
  predicate StartsLoop(l: Link) {
    l.connected && !l.closing && !l.reconnecting
  }

  function LinkDown(l: Link): Link {
    if !l.connected then l
    else CloseChannel(l).(connected := false, reconnecting := l.reconnecting || StartsLoop(l))
  }

  /** The callback the report of the stack is passed on by, outside the lock. */
  function ReportOf(l: Link, up: bool): Option<Callback> {
    if up then
      if !l.connected && !l.reconnecting then Some(OnReconnect) else None
    else
      if l.connected then Some(OnDisconnect) else None
  }

  function EndReconnecting(l: Link): Link {
    l.(reconnecting := false)
  }

  function Close(l: Link): Link {
    CloseChannel(l).(closing := true, reconnecting := false, connected := false)
  }

  function SendGuard(l: Link): SendVerdict {
    if l.reconnecting then Reconnecting else if !l.connected then NotConnected else MayWrite
  }

  class BLE {
    var connected: bool
    var reconnecting: bool
    var closing: bool
    var closeCh: nat
    var closes: multiset<nat>

    function View(): Link
      reads this
    {
      Link(connected, reconnecting, closing, closeCh, closes)
    }

    constructor ()
      ensures View() == NewLink()
    {
      connected, reconnecting, closing, closeCh, closes := false, false, false, 0, multiset{};
    }

    method IsCloseChClosed() returns (closed: bool)
      ensures closed <==> IsClosed(View())
    {
      closed := closes[closeCh] > 0;
    }

    /** The section at the top of Connect. */
    method StartConnect() returns (ok: bool)
      modifies this
      ensures ok <==> MayConnect(old(View()))
      ensures View() == BeginConnect(old(View()))
    {
      if connected {
        return false;
      }
      closing := false;
      return true;
    }

    /** The section of connect that installs the device. */
    method InstallDevice()
      modifies this
      ensures View() == Install(old(View()))
    {
      connected := true;
      var closed := IsCloseChClosed();
      if closed {
        closeCh := closeCh + 1;
      }
    }

    /** handleConnectionStateChange: its section, and what it does after it, to report and to start a loop. */
    method HandleConnectionStateChange(up: bool) returns (report: Option<Callback>, start: bool)
      modifies this
      ensures View() == if up then LinkUp(old(View())) else LinkDown(old(View()))
      ensures report == ReportOf(old(View()), up)
      ensures start <==> !up && StartsLoop(old(View()))
    {
      var wasConnected := connected;
      if up {
        connected := true;
        return if !wasConnected && !reconnecting then Some(OnReconnect) else None, false;
      }
      if !wasConnected {
        return None, false;
      }
      connected := false;
      start := !closing && !reconnecting;
      var closed := IsCloseChClosed();
      if !closed {
        closes := closes + multiset{closeCh};
      }
      if start {
        reconnecting := true;
      }
      report := Some(OnDisconnect);
    }

    /** The section at the top of the reconnect loop. */
    method LoopShouldStop() returns (stop: bool)
      modifies this
      ensures stop <==> old(closing)
      ensures View() == if stop then EndReconnecting(old(View())) else old(View())
    {
      if closing {
        reconnecting := false;
        return true;
      }
      return false;
    }

    /** The reconnect loop after a successful connect: its section, and the callback it calls then. */
    method LoopSucceeded() returns (report: Callback)
      modifies this
      ensures View() == EndReconnecting(old(View()))
      ensures report == OnReconnect
    {
      reconnecting := false;
      report := OnReconnect;
    }

    /** The guard at the top of Send. */
    method BeforeWrite() returns (verdict: SendVerdict)
      ensures verdict == SendGuard(View())
    {
      if reconnecting {
        return Reconnecting;
      }
      if !connected {
        return NotConnected;
      }
      return MayWrite;
    }

    /** Close; `disconnects` tells whether the device is told to disconnect. */
    method CloseLink() returns (disconnects: bool)
      modifies this
      ensures View() == Close(old(View()))
      ensures disconnects <==> old(connected)
    {
      closing := true;
      reconnecting := false;
      var closed := IsCloseChClosed();
      if !connected {
        if !closed {
          closes := closes + multiset{closeCh};
        }
        return false;
      }
      connected := false;
      if !closed {
        closes := closes + multiset{closeCh};
      }
      return true;
    }
  }
}

/** Connect calls, reconnect loops, link reports and Close, all interleaved. */
module BleRuns {
  import opened BleLink
  import opened Wrappers
  import opened Callbacks
  import Backoff
  import Runs

  /** Where a goroutine that runs connect is. */
  datatype Pc =
    | AtTop
    | Dialling
    | Writing
    | AwaitingAck
    | AuthFailed
    | Connected
    | Sleeping
    | Done

  /** A reconnect loop, or a caller inside Connect. */
  datatype Thread = Thread(loop: bool, pc: Pc, delay: nat, slept: seq<nat>)

  /** `trace` are the callbacks called, in the order in which the transport decides to. */
  datatype State = State(link: Link, hasToken: bool, threads: seq<Thread>, trace: seq<Callback>)

  function Init(hasToken: bool): State {
    State(NewLink(), hasToken, [], [])
  }

  datatype Event =
    | ConnectStarts
    | LoopChecks(t: nat)
    | DialFails(t: nat)
    | DialInstalls(t: nat)
    | TokenSent(t: nat)
    | TokenFails(t: nat)
    | AckArrives(t: nat)
    | AckFails(t: nat)
    | AuthCleansUp(t: nat)
    | ConnectDone(t: nat)
    | LoopSleeps(t: nat)
    | DeviceUp
    | DeviceDown
    | CloseCalled

  function NewLoop(): Thread {
    Thread(true, AtTop, Backoff.FIRST_DELAY, [])
  }

  function Goto(s: State, t: nat, pc: Pc): State
    requires t < |s.threads|
  {
    s.(threads := s.threads[t := s.threads[t].(pc := pc)])
  }

  /** What follows a connect that failed: a loop sleeps, a caller returns. */
  function AfterFailure(th: Thread): Pc {
    if th.loop then Sleeping else Done
  }

  function Reported(trace: seq<Callback>, report: Option<Callback>): seq<Callback> {
    if report.Some? then trace + [report.value] else trace
  }

  /** The link goes down; the loop this asks for is started. */
  function TakeDown(s: State): State {
    s.(link := LinkDown(s.link),
       threads := if StartsLoop(s.link) then s.threads + [NewLoop()] else s.threads,
       trace := Reported(s.trace, ReportOf(s.link, false)))
  }

  /** The loop has connected: it clears `reconnecting`, and then reports. */
  function LoopDone(s: State): State {
    s.(link := EndReconnecting(s.link), trace := s.trace + [OnReconnect])
  }

  function Step(s: State, e: Event): State {
    if e.ConnectStarts? then
      if MayConnect(s.link) then
        s.(link := BeginConnect(s.link), threads := s.threads + [Thread(false, Dialling, 0, [])])
      else s
    else if e.DeviceUp? then
      s.(link := LinkUp(s.link), trace := Reported(s.trace, ReportOf(s.link, true)))
    else if e.DeviceDown? then TakeDown(s)
    else if e.CloseCalled? then s.(link := Close(s.link))
    else if e.t >= |s.threads| then s
    else
      var th := s.threads[e.t];
      match e
      case LoopChecks(t) =>
        if !th.pc.AtTop? then s
        else if s.link.closing then Goto(s.(link := EndReconnecting(s.link)), t, Done)
        else Goto(s, t, Dialling)
      case DialFails(t) => if th.pc.Dialling? then Goto(s, t, AfterFailure(th)) else s
      case DialInstalls(t) =>
        if th.pc.Dialling? then Goto(s.(link := Install(s.link)), t, if s.hasToken then Writing else Connected) else s
      case TokenSent(t) =>
        if th.pc.Writing? && SendGuard(s.link).MayWrite? then Goto(s, t, AwaitingAck) else s
      case TokenFails(t) => if th.pc.Writing? then Goto(s, t, AuthFailed) else s
      case AckArrives(t) => if th.pc.AwaitingAck? then Goto(s, t, Connected) else s
      case AckFails(t) => if th.pc.AwaitingAck? then Goto(s, t, AuthFailed) else s
      case AuthCleansUp(t) => if th.pc.AuthFailed? then TakeDown(Goto(s, t, AfterFailure(th))) else s
      case ConnectDone(t) =>
        if !th.pc.Connected? then s
        else Goto(if th.loop then LoopDone(s) else s, t, Done)
      case LoopSleeps(t) =>
        if !th.pc.Sleeping? then s
        else s.(threads := s.threads[t := Thread(th.loop, AtTop, Backoff.NextDelay(th.delay), th.slept + [th.delay])])
      case _ => s
  }

  ghost function After(hasToken: bool, es: seq<Event>): State {
    Runs.After(Step, Init(hasToken), es)
  }

  predicate Unrestricted(s: State, e: Event) {
    true
  }

  // ---- the close channel ----

  /** No close channel is closed twice, and none beyond the current one has been closed. */
  ghost predicate ChannelInv(s: State) {
    forall g {:trigger s.link.closes[g]} :: s.link.closes[g] <= 1 && (s.link.closes[g] > 0 ==> g <= s.link.closeCh)
  }

  /** No event but these four touches the close channels. */
  lemma ChannelFrame(s: State, e: Event)
    ensures var l := Step(s, e).link;
            || (l.closeCh == s.link.closeCh && l.closes == s.link.closes)
            || (l.closeCh == Install(s.link).closeCh && l.closes == s.link.closes)
            || (l.closeCh == s.link.closeCh && l.closes == CloseChannel(s.link).closes)
  {
  }

  lemma StepKeepsChannel(s: State, e: Event)
    requires ChannelInv(s)
    ensures ChannelInv(Step(s, e))
  {
    ChannelFrame(s, e);
    forall g
      ensures CloseChannel(s.link).closes[g] <= 1 && (CloseChannel(s.link).closes[g] > 0 ==> g <= s.link.closeCh)
    {
      assert s.link.closes[g] <= 1;
    }
  }

  lemma ChannelAlways(hasToken: bool, es: seq<Event>)
    ensures ChannelInv(After(hasToken, es))
  {
    forall s, e | ChannelInv(s) && Unrestricted(s, e)
      ensures ChannelInv(Step(s, e))
    {
      StepKeepsChannel(s, e);
    }
    Runs.AnyRunAbides(Step, Init(hasToken), Unrestricted, es);
    Runs.InvariantHolds(Step, Init(hasToken), Unrestricted, ChannelInv, es);
  }

  /** In every run without exception, a close channel is closed at most once. */
  lemma CloseChNeverClosedTwice(hasToken: bool, es: seq<Event>, g: nat)
    ensures After(hasToken, es).link.closes[g] <= 1
  {
    ChannelAlways(hasToken, es);
  }

  // ---- backoff ----

  ghost predicate ScheduleInv(s: State) {
    forall t :: 0 <= t < |s.threads| && s.threads[t].loop ==> Backoff.OnSchedule(s.threads[t].delay, s.threads[t].slept)
  }

  lemma StepKeepsSchedule(s: State, e: Event)
    requires ScheduleInv(s)
    ensures ScheduleInv(Step(s, e))
  {
    if e.LoopSleeps? && e.t < |s.threads| && s.threads[e.t].loop {
      Backoff.SleepStaysOnSchedule(s.threads[e.t].delay, s.threads[e.t].slept);
    }
  }

  /** Every reconnect loop sleeps 1, 2, 4, 8, 16, 30, 30, ... seconds, so many in all. */
  lemma LoopBacksOff(hasToken: bool, es: seq<Event>, t: nat)
    requires t < |After(hasToken, es).threads| && After(hasToken, es).threads[t].loop
    ensures var slept := After(hasToken, es).threads[t].slept;
            && (forall k :: 0 <= k < |slept| ==> slept[k] == Backoff.DelayAt(k))
            && Backoff.TotalDelay(slept) == if |slept| <= 5 then Backoff.Pow2(|slept|) - 1 else 31 + 30 * (|slept| - 5)
  {
    forall s, e | ScheduleInv(s) && Unrestricted(s, e)
      ensures ScheduleInv(Step(s, e))
    {
      StepKeepsSchedule(s, e);
    }
    Runs.AnyRunAbides(Step, Init(hasToken), Unrestricted, es);
    Runs.InvariantHolds(Step, Init(hasToken), Unrestricted, ScheduleInv, es);
    Backoff.TotalOnSchedule(After(hasToken, es).threads[t].slept);
  }

  // ---- reports ----

  /** The event handles a report that the link is down: the stack's, or the one after a failed handshake. */
  predicate HandlesDown(s: State, e: Event) {
    e.DeviceDown? || (e.AuthCleansUp? && e.t < |s.threads| && s.threads[e.t].pc.AuthFailed?)
  }

  /** The event ends a reconnect loop past its connect. */
  predicate EndsLoop(s: State, e: Event) {
    e.ConnectDone? && e.t < |s.threads| && s.threads[e.t].loop && s.threads[e.t].pc.Connected?
  }

  /**
   Which events call which callback, in every run: OnDisconnect exactly those that handle a report of
   the link down and clear `connected`; OnReconnect exactly a report of the link up that sets it while
   nobody is reconnecting, and a loop that ends past its connect, whatever has become of the link.
   */
  lemma ReportsExactly(hasToken: bool, es: seq<Event>, e: Event)
    ensures var s, s' := After(hasToken, es), After(hasToken, es + [e]);
            && s.trace <= s'.trace && |s'.trace| <= |s.trace| + 1
            && (s'.trace == s.trace + [OnDisconnect] <==>
                  HandlesDown(s, e) && s.link.connected && !s'.link.connected)
            && (s'.trace == s.trace + [OnReconnect] <==>
                  || (e.DeviceUp? && !s.link.connected && s'.link.connected && !s.link.reconnecting)
                  || EndsLoop(s, e))
  {
    var s := After(hasToken, es);
    Runs.Extend(Step, Init(hasToken), es, e);
    TraceStep(s, e);
    var d, r := s.trace + [OnDisconnect], s.trace + [OnReconnect];
    assert d[|s.trace|] != r[|s.trace|] && d != s.trace && r != s.trace;
  }

  lemma TraceStep(s: State, e: Event)
    ensures Step(s, e).trace ==
            if HandlesDown(s, e) && s.link.connected then s.trace + [OnDisconnect]
            else if (e.DeviceUp? && !s.link.connected && !s.link.reconnecting) || EndsLoop(s, e) then
              s.trace + [OnReconnect]
            else s.trace
    ensures HandlesDown(s, e) ==> !Step(s, e).link.connected
    ensures e.DeviceUp? ==> Step(s, e).link.connected
  {
  }

  // ---- one reconnect loop ----

  predicate IsLive(s: State, t: nat) {
    t < |s.threads| && s.threads[t].loop && !s.threads[t].pc.Done?
  }

  ghost predicate SingleLoop(s: State) {
    forall t, u :: IsLive(s, t) && IsLive(s, u) ==> t == u
  }

  /** No Connect begins on a closed transport whose reconnect loop is still winding down. */
  ghost predicate NoStaleLoop(s: State, e: Event) {
    e.ConnectStarts? && MayConnect(s.link) && s.link.closing ==> forall t :: !IsLive(s, t)
  }

  /** No Connect begins after Close. */
  predicate NoConnectAfterClose(s: State, e: Event) {
    e.ConnectStarts? ==> !s.link.closing
  }

  ghost predicate LoopInv(s: State) {
    && SingleLoop(s)
    && (s.link.closing ==> !s.link.reconnecting)
    && (!s.link.closing ==> (s.link.reconnecting <==> exists t :: IsLive(s, t)))
  }

  /** Which loops an event starts or ends. */
  lemma LiveStep(s: State, e: Event, t: nat)
    ensures IsLive(s, t) && !IsLive(Step(s, e), t) ==>
              && (e.LoopChecks? || e.ConnectDone?) && e.t == t && !Step(s, e).link.reconnecting
              && (e.LoopChecks? ==> s.link.closing)
    ensures !IsLive(s, t) && IsLive(Step(s, e), t) ==>
              && t == |s.threads| && StartsLoop(s.link) && (e.DeviceDown? || e.AuthCleansUp?)
              && Step(s, e).link.reconnecting
  {
  }

  /** What an event does to the two flags the loops live by. */
  lemma FlagStep(s: State, e: Event)
    ensures Step(s, e).link.closing != s.link.closing ==> e.CloseCalled? || (e.ConnectStarts? && MayConnect(s.link))
    ensures s.link.reconnecting && !Step(s, e).link.reconnecting ==>
              || e.CloseCalled?
              || ((e.LoopChecks? || e.ConnectDone?) && IsLive(s, e.t) && !IsLive(Step(s, e), e.t))
              || (e.LoopChecks? && s.link.closing)
    ensures !s.link.reconnecting && Step(s, e).link.reconnecting ==>
              && StartsLoop(s.link) && !IsLive(s, |s.threads|) && IsLive(Step(s, e), |s.threads|)
  {
  }

  lemma StepKeepsLoop(s: State, e: Event)
    requires LoopInv(s) && NoStaleLoop(s, e)
    ensures LoopInv(Step(s, e))
  {
    var s' := Step(s, e);
    FlagStep(s, e);
    forall t
      ensures IsLive(s, t) && !IsLive(s', t) ==>
                && (e.LoopChecks? || e.ConnectDone?) && e.t == t && !s'.link.reconnecting
                && (e.LoopChecks? ==> s.link.closing)
      ensures !IsLive(s, t) && IsLive(s', t) ==> t == |s.threads| && StartsLoop(s.link) && s'.link.reconnecting
    {
      LiveStep(s, e, t);
    }
  }

  lemma LoopAlways(hasToken: bool, es: seq<Event>)
    requires Runs.Abides(Step, Init(hasToken), NoStaleLoop, es)
    ensures LoopInv(After(hasToken, es))
  {
    forall s, e | LoopInv(s) && NoStaleLoop(s, e)
      ensures LoopInv(Step(s, e))
    {
      StepKeepsLoop(s, e);
    }
    Runs.InvariantHolds(Step, Init(hasToken), NoStaleLoop, LoopInv, es);
  }

  /**
   In every run in which no Connect begins after Close, at most one reconnect loop is live, and
   while the transport is not closing it is reconnecting exactly when one is.
   */
  lemma SingleReconnector(hasToken: bool, es: seq<Event>)
    requires Runs.Abides(Step, Init(hasToken), NoConnectAfterClose, es)
    ensures var s := After(hasToken, es);
            SingleLoop(s) && (!s.link.closing ==> (s.link.reconnecting <==> exists t :: IsLive(s, t)))
  {
    Runs.AbidesWeaker(Step, Init(hasToken), NoConnectAfterClose, NoStaleLoop, es);
    LoopAlways(hasToken, es);
  }

  /**
   What Send meets, in such runs and their like: it is told to wait exactly while the transport is not
   closing and a loop is live, and it may write exactly if not so and the transport is connected.
   */
  lemma SendGuardExactly(hasToken: bool, es: seq<Event>)
    requires Runs.Abides(Step, Init(hasToken), NoStaleLoop, es)
    ensures var s := After(hasToken, es);
            && (SendGuard(s.link).Reconnecting? <==> !s.link.closing && exists t :: IsLive(s, t))
            && (SendGuard(s.link).MayWrite? <==> s.link.connected && (s.link.closing || forall t :: !IsLive(s, t)))
  {
    LoopAlways(hasToken, es);
  }

  /** Whatever happens next under the rule, there is never a second live loop. */
  ghost predicate StaysSingle(s: State) {
    forall es: seq<Event> :: Runs.Abides(Step, s, NoStaleLoop, es) ==> SingleLoop(Runs.After(Step, s, es))
  }

  /**
   The rule is exact: a Connect lets a second loop appear later exactly when it begins on a closed
   transport while a loop is still winding down (asleep, say, when Close ran).
   */
  lemma SecondLoopExactlyWhenStale(hasToken: bool, run: seq<Event>)
    requires Runs.Abides(Step, Init(hasToken), NoStaleLoop, run)
    ensures var s := After(hasToken, run);
            StaysSingle(Step(s, ConnectStarts)) <==> NoStaleLoop(s, ConnectStarts)
  {
    var s := After(hasToken, run);
    LoopAlways(hasToken, run);
    var s1 := Step(s, ConnectStarts);
    if NoStaleLoop(s, ConnectStarts) {
      StepKeepsLoop(s, ConnectStarts);
      forall s, e | LoopInv(s) && NoStaleLoop(s, e)
        ensures LoopInv(Step(s, e))
      {
        StepKeepsLoop(s, e);
      }
      forall es: seq<Event> | Runs.Abides(Step, s1, NoStaleLoop, es)
        ensures SingleLoop(Runs.After(Step, s1, es))
      {
        Runs.InvariantHolds(Step, s1, NoStaleLoop, LoopInv, es);
      }
    } else {
      var es := StaleLoopGetsCompany(s);
    }
  }

  /** The old loop, and the one the new connection's loss starts. */
  lemma StaleLoopGetsCompany(s: State) returns (es: seq<Event>)
    requires LoopInv(s) && !NoStaleLoop(s, ConnectStarts)
    ensures var s1 := Step(s, ConnectStarts);
            Runs.Abides(Step, s1, NoStaleLoop, es) && !SingleLoop(Runs.After(Step, s1, es))
  {
    var t := |s.threads|;
    var s1 := Step(s, ConnectStarts);
    assert !s1.link.closing && !s1.link.reconnecting && s1.threads == s.threads + [Thread(false, Dialling, 0, [])];
    var s2 := Step(s1, DialInstalls(t));
    assert StartsLoop(s2.link) && s2.threads[..t] == s.threads;
    var s3 := Step(s2, DeviceDown);
    assert s3.threads == s2.threads + [NewLoop()];
    StaleLoopIsDouble(s, s3);
    Runs.Two(Step, s1, NoStaleLoop, DialInstalls(t), DeviceDown);
    es := [DialInstalls(t), DeviceDown];
  }

  lemma StaleLoopIsDouble(s: State, s3: State)
    requires !NoStaleLoop(s, ConnectStarts)
    requires |s.threads| < |s3.threads| && s3.threads[..|s.threads|] == s.threads
    requires s3.threads[|s3.threads| - 1] == NewLoop()
    ensures !SingleLoop(s3)
  {
    var stale: nat :| IsLive(s, stale);
    assert s3.threads[..|s.threads|][stale] == s3.threads[stale];
    assert IsLive(s3, stale) && IsLive(s3, |s3.threads| - 1);
  }

  // ---- re-authentication ----

  /** A caller dials once: only a loop comes back to its top. */
  ghost predicate CallersDialOnce(s: State) {
    forall t :: 0 <= t < |s.threads| && !s.threads[t].loop ==> !s.threads[t].pc.AtTop? && !s.threads[t].pc.Sleeping?
  }

  ghost predicate Tokenless(s: State) {
    forall t :: 0 <= t < |s.threads| && !s.hasToken ==> !IsAuth(s.threads[t].pc)
  }

  /** A loop that has not had its token written is behind every reconnecting; without a token nobody has one. */
  ghost predicate BackedInv(s: State) {
    && CallersDialOnce(s)
    && (s.link.reconnecting ==> exists t :: IsLive(s, t) && (s.hasToken ==> !PastToken(s, t)))
    && Tokenless(s)
  }

  lemma StepKeepsTokenless(s: State, e: Event)
    requires Tokenless(s)
    ensures Tokenless(Step(s, e)) && Step(s, e).hasToken == s.hasToken
  {
  }

  lemma StepKeepsCallers(s: State, e: Event)
    requires CallersDialOnce(s)
    ensures CallersDialOnce(Step(s, e))
  {
  }

  lemma StepKeepsBacked(s: State, e: Event)
    requires BackedInv(s)
    ensures BackedInv(Step(s, e))
  {
    var s' := Step(s, e);
    FlagStep(s, e);
    StepKeepsCallers(s, e);
    StepKeepsTokenless(s, e);
    if s.link.reconnecting && s'.link.reconnecting {
      var t :| IsLive(s, t) && (s.hasToken ==> !PastToken(s, t));
      LiveStep(s, e, t);
      assert IsLive(s', t) && (s.hasToken ==> !PastToken(s', t));
    } else if s'.link.reconnecting {
      assert IsLive(s', |s.threads|) && !PastToken(s', |s.threads|);
    }
  }

  lemma BackedAlways(hasToken: bool, es: seq<Event>)
    ensures BackedInv(After(hasToken, es)) && After(hasToken, es).hasToken == hasToken
  {
    var inv := (s: State) => BackedInv(s) && s.hasToken == hasToken;
    forall s, e | inv(s) && Unrestricted(s, e)
      ensures inv(Step(s, e))
    {
      StepKeepsBacked(s, e);
    }
    Runs.AnyRunAbides(Step, Init(hasToken), Unrestricted, es);
    Runs.InvariantHolds(Step, Init(hasToken), Unrestricted, inv, es);
  }

  /** Loop `t` has had its token written, or needed none written, in the connect it is in. */
  predicate PastToken(s: State, t: nat) {
    IsLive(s, t) && (s.threads[t].pc.AwaitingAck? || s.threads[t].pc.Connected?)
  }

  predicate NoClose(s: State, e: Event) {
    !e.CloseCalled?
  }

  ghost predicate TrappedInv(s: State) {
    s.hasToken && s.link.reconnecting && !s.link.closing && forall t :: !PastToken(s, t)
  }

  lemma StepKeepsTrapped(s: State, e: Event)
    requires TrappedInv(s) && NoClose(s, e)
    ensures TrappedInv(Step(s, e))
  {
    var s' := Step(s, e);
    FlagStep(s, e);
    forall t
      ensures !PastToken(s', t)
    {
      LiveStep(s, e, t);
      assert !PastToken(s, t);
    }
    if e.ConnectDone? {
      assert !PastToken(s, e.t);
    }
  }

  /** Some run without a Close makes `reconnecting` false, over a live link or a dead one. */
  ghost predicate CanStopReconnecting(s: State) {
    exists es: seq<Event> :: Runs.Abides(Step, s, NoClose, es) && !Runs.After(Step, s, es).link.reconnecting
  }

  /** The event is a step of a loop, or of a Connect already begun. */
  predicate ThreadsOnly(s: State, e: Event) {
    !e.ConnectStarts? && !e.DeviceUp? && !e.DeviceDown? && !e.CloseCalled?
  }

  /** The reconnecting is over, and the link is there. */
  predicate Recovered(l: Link) {
    l.connected && !l.reconnecting
  }

  /** The loops and the callers in flight, if the device lets them, bring the transport back. */
  ghost predicate CanRecover(s: State) {
    exists es: seq<Event> :: Runs.Abides(Step, s, ThreadsOnly, es) && Recovered(Runs.After(Step, s, es).link)
  }

  /** Loop `t` can still dial: it is not yet, and for good, past its connect. */
  predicate CanRedial(s: State, t: nat) {
    IsLive(s, t) && !s.threads[t].pc.Connected?
  }

  /** Thread `t` can still dial: a caller dials once. */
  predicate CanDial(s: State, t: nat) {
    CanRedial(s, t) || (t < |s.threads| && !s.threads[t].loop && s.threads[t].pc.Dialling?)
  }

  /** How far a loop is from its next successful dial. */
  function Distance(pc: Pc): nat {
    match pc
    case Dialling => 1
    case AtTop => 2
    case Sleeping => 3
    case AuthFailed => 4
    case Writing => 5
    case AwaitingAck => 5
    case _ => 0
  }

  function NextLoopEvent(pc: Pc, t: nat): Event {
    match pc
    case Dialling => DialInstalls(t)
    case AtTop => LoopChecks(t)
    case Sleeping => LoopSleeps(t)
    case AuthFailed => AuthCleansUp(t)
    case Writing => TokenFails(t)
    case _ => AckFails(t)
  }

  predicate IsAuth(pc: Pc) {
    pc.Writing? || pc.AwaitingAck? || pc.AuthFailed?
  }

  /** A step of loop `u` on its way to a dial leaves the rest of the transport alone. */
  lemma RedialStep(s: State, u: nat)
    requires CanRedial(s, u) && !s.link.closing && (IsAuth(s.threads[u].pc) ==> !s.link.connected)
    ensures var s' := Step(s, NextLoopEvent(s.threads[u].pc, u));
            && ThreadsOnly(s, NextLoopEvent(s.threads[u].pc, u))
            && s'.hasToken == s.hasToken && |s'.threads| == |s.threads|
            && (forall t :: 0 <= t < |s.threads| && t != u ==> s'.threads[t] == s.threads[t])
            && s'.threads[u].loop
            && s'.link.reconnecting == s.link.reconnecting && !s'.link.closing
            && (if s.threads[u].pc.Dialling? then
                  s'.link.connected && s'.threads[u].pc == if s.hasToken then Writing else Connected
                else
                  && s'.link == s.link && CanRedial(s', u)
                  && Distance(s'.threads[u].pc) < Distance(s.threads[u].pc)
                  && (IsAuth(s'.threads[u].pc) ==> IsAuth(s.threads[u].pc)))
  {
  }

  /** A loop that can still dial, and finds its device, has the link up; the other threads stay put. */
  lemma Redial(s: State, u: nat) returns (es: seq<Event>)
    requires CanRedial(s, u) && !s.link.closing && (IsAuth(s.threads[u].pc) ==> !s.link.connected)
    ensures Runs.Abides(Step, s, ThreadsOnly, es)
    ensures var s' := Runs.After(Step, s, es);
            && s'.hasToken == s.hasToken && |s'.threads| == |s.threads|
            && (forall t :: 0 <= t < |s.threads| && t != u ==> s'.threads[t] == s.threads[t])
            && s'.threads[u].loop && s'.threads[u].pc == (if s.hasToken then Writing else Connected)
            && s'.link.connected && s'.link.reconnecting == s.link.reconnecting
    decreases Distance(s.threads[u].pc)
  {
    var e := NextLoopEvent(s.threads[u].pc, u);
    RedialStep(s, u);
    Runs.One(Step, s, ThreadsOnly, e);
    es := [e];
    if !s.threads[u].pc.Dialling? {
      var rest := Redial(Step(s, e), u);
      Runs.Join(Step, s, ThreadsOnly, [e], rest);
      es := [e] + rest;
    }
  }

  /** A loop past its token needs only the device's acknowledgement; the link stays as it is. */
  lemma PastTokenFinishes(s: State, t: nat) returns (es: seq<Event>)
    requires PastToken(s, t)
    ensures Runs.Abides(Step, s, ThreadsOnly, es)
    ensures Runs.After(Step, s, es).link == EndReconnecting(s.link)
  {
    if s.threads[t].pc.Connected? {
      es := [ConnectDone(t)];
      Runs.One(Step, s, ThreadsOnly, ConnectDone(t));
    } else {
      es := [AckArrives(t), ConnectDone(t)];
      Runs.Two(Step, s, ThreadsOnly, AckArrives(t), ConnectDone(t));
    }
  }

  /** The loops bring the link up first, and then the reconnecting to its end. */
  lemma RedialThenFinish(s: State, u: nat, t: nat) returns (es: seq<Event>)
    requires CanRedial(s, u) && !s.link.closing && (IsAuth(s.threads[u].pc) ==> !s.link.connected)
    requires if s.hasToken then t != u && PastToken(s, t) else t == u
    ensures Runs.Abides(Step, s, ThreadsOnly, es) && Recovered(Runs.After(Step, s, es).link)
  {
    var dial := Redial(s, u);
    var done := PastTokenFinishes(Runs.After(Step, s, dial), t);
    Runs.Join(Step, s, ThreadsOnly, dial, done);
    es := dial + done;
  }

  /**
   Somebody can bring the transport back.  With a token: a loop has had its token written.  Without
   one: the link is up, or a loop or a caller can still dial.
   */
  ghost predicate HasWayBack(s: State) {
    if s.hasToken then exists t :: PastToken(s, t) else s.link.connected || exists u: nat :: CanDial(s, u)
  }

  /** A caller's dial brings the link, and a loop past its connect ends the reconnecting. */
  lemma CallerThenFinish(s: State, u: nat, t: nat) returns (es: seq<Event>)
    requires CanDial(s, u) && !s.threads[u].loop && PastToken(s, t)
    ensures Runs.Abides(Step, s, ThreadsOnly, es) && Recovered(Runs.After(Step, s, es).link)
  {
    Runs.One(Step, s, ThreadsOnly, DialInstalls(u));
    var done := PastTokenFinishes(Step(s, DialInstalls(u)), t);
    Runs.Join(Step, s, ThreadsOnly, [DialInstalls(u)], done);
    es := [DialInstalls(u)] + done;
  }

  lemma WayBackWithToken(s: State, t: nat) returns (es: seq<Event>)
    requires BackedInv(s) && s.hasToken && s.link.reconnecting && !s.link.closing && PastToken(s, t)
    ensures Runs.Abides(Step, s, ThreadsOnly, es) && Recovered(Runs.After(Step, s, es).link)
  {
    if s.link.connected {
      es := PastTokenFinishes(s, t);
    } else {
      var u :| IsLive(s, u) && !PastToken(s, u);
      es := RedialThenFinish(s, u, t);
    }
  }

  lemma WayBackWithoutToken(s: State) returns (es: seq<Event>)
    requires BackedInv(s) && !s.hasToken && s.link.reconnecting && !s.link.closing && HasWayBack(s)
    ensures Runs.Abides(Step, s, ThreadsOnly, es) && Recovered(Runs.After(Step, s, es).link)
  {
    var t :| IsLive(s, t);
    if CanRedial(s, t) {
      es := RedialThenFinish(s, t, t);
    } else if s.link.connected {
      es := PastTokenFinishes(s, t);
    } else {
      var u: nat :| CanDial(s, u);
      if s.threads[u].loop {
        es := RedialThenFinish(s, u, u);
      } else {
        es := CallerThenFinish(s, u, t);
      }
    }
  }

  /** Nobody can dial, and the link is dead. */
  ghost predicate EndsInVain(s: State) {
    CallersDialOnce(s) && !s.link.connected && forall t: nat :: !CanDial(s, t)
  }

  ghost predicate Hopeless(s: State) {
    TrappedInv(s) || EndsInVain(s)
  }

  lemma EndsInVainStays(s: State, e: Event)
    requires EndsInVain(s) && ThreadsOnly(s, e)
    ensures EndsInVain(Step(s, e))
  {
    StepKeepsCallers(s, e);
    assert !CanDial(s, e.t);
    forall t: nat
      ensures !CanDial(Step(s, e), t)
    {
      assert !CanDial(s, t);
    }
  }

  lemma StepKeepsHopeless(s: State, e: Event)
    requires Hopeless(s) && ThreadsOnly(s, e)
    ensures Hopeless(Step(s, e))
  {
    if TrappedInv(s) {
      StepKeepsTrapped(s, e);
    } else {
      EndsInVainStays(s, e);
    }
  }

  /**
   Which lost links are recovered, in every run, by the threads there are.  authenticate goes through
   Send, which refuses while reconnecting, so with a token a loop must have had its token written
   before `reconnecting` was set.  And a loop past its connect does not look at the link again: if
   the link is lost then, it ends the reconnecting all the same, and somebody else must dial.
   */
  lemma RecoversExactly(hasToken: bool, run: seq<Event>)
    requires After(hasToken, run).link.reconnecting && !After(hasToken, run).link.closing
    ensures CanRecover(After(hasToken, run)) <==> HasWayBack(After(hasToken, run))
  {
    var s := After(hasToken, run);
    BackedAlways(hasToken, run);
    if HasWayBack(s) {
      var es;
      if s.hasToken {
        var t :| PastToken(s, t);
        es := WayBackWithToken(s, t);
      } else {
        es := WayBackWithoutToken(s);
      }
    } else {
      assert Hopeless(s);
      forall s, e | Hopeless(s) && ThreadsOnly(s, e)
        ensures Hopeless(Step(s, e))
      {
        StepKeepsHopeless(s, e);
      }
      forall es: seq<Event> | Runs.Abides(Step, s, ThreadsOnly, es)
        ensures !Recovered(Runs.After(Step, s, es).link)
      {
        Runs.InvariantHolds(Step, s, ThreadsOnly, Hopeless, es);
      }
    }
  }

  /** Without a token a live loop ends the reconnecting, whatever the link. */
  lemma LoopFinishes(s: State, t: nat)
    requires BackedInv(s) && !s.hasToken && !s.link.closing && IsLive(s, t)
    ensures CanStopReconnecting(s)
  {
    var es: seq<Event>;
    if s.threads[t].pc.Connected? {
      es := PastTokenFinishes(s, t);
    } else {
      es := RedialThenFinish(s, t, t);
    }
    Runs.AbidesWeaker(Step, s, ThreadsOnly, NoClose, es);
  }

  /** With a token `reconnecting` stays true until Close, unless some loop had its token written before. */
  lemma StopsReconnectingExactly(hasToken: bool, run: seq<Event>)
    requires After(hasToken, run).link.reconnecting && !After(hasToken, run).link.closing
    ensures var s := After(hasToken, run);
            CanStopReconnecting(s) <==> !hasToken || exists t :: PastToken(s, t)
  {
    var s := After(hasToken, run);
    BackedAlways(hasToken, run);
    if t :| PastToken(s, t) {
      var es := PastTokenFinishes(s, t);
      Runs.AbidesWeaker(Step, s, ThreadsOnly, NoClose, es);
    } else if hasToken {
      forall s, e | TrappedInv(s) && NoClose(s, e)
        ensures TrappedInv(Step(s, e))
      {
        StepKeepsTrapped(s, e);
      }
      forall es: seq<Event> | Runs.Abides(Step, s, NoClose, es)
        ensures Runs.After(Step, s, es).link.reconnecting
      {
        Runs.InvariantHolds(Step, s, NoClose, TrappedInv, es);
      }
    } else {
      var t :| IsLive(s, t);
      LoopFinishes(s, t);
    }
  }

  /** While the only loops are those of the current connection, a loop's token is never written. */
  ghost predicate AuthInv(s: State) {
    LoopInv(s) && (s.hasToken && !s.link.closing ==> forall t :: !PastToken(s, t))
  }

  lemma StepKeepsAuth(s: State, e: Event)
    requires AuthInv(s) && NoStaleLoop(s, e)
    ensures AuthInv(Step(s, e))
  {
    StepKeepsLoop(s, e);
    FlagStep(s, e);
    var s' := Step(s, e);
    forall t | s'.hasToken && !s'.link.closing
      ensures !PastToken(s', t)
    {
      LiveStep(s, e, t);
      if IsLive(s, t) && !s.link.closing {
        assert s.link.reconnecting && !PastToken(s, t);
      }
    }
  }

  /**
   If no Connect begins while an old loop is winding down: with a token neither the reconnecting nor
   the loss of the link ever ends before Close; without one the reconnecting ends, and the link comes
   back exactly if it is up or the loop or a caller can still dial.
   */
  lemma RecoversExactlyWithoutToken(hasToken: bool, run: seq<Event>)
    requires Runs.Abides(Step, Init(hasToken), NoStaleLoop, run)
    requires After(hasToken, run).link.reconnecting && !After(hasToken, run).link.closing
    ensures CanStopReconnecting(After(hasToken, run)) <==> !hasToken
    ensures var s := After(hasToken, run);
            CanRecover(s) <==> !hasToken && (s.link.connected || exists t: nat :: CanDial(s, t))
  {
    RecoversExactly(hasToken, run);
    StopsReconnectingExactly(hasToken, run);
    BackedAlways(hasToken, run);
    forall s, e | AuthInv(s) && NoStaleLoop(s, e)
      ensures AuthInv(Step(s, e))
    {
      StepKeepsAuth(s, e);
    }
    Runs.InvariantHolds(Step, Init(hasToken), NoStaleLoop, AuthInv, run);
  }

  lemma Next(rule: (State, Event) -> bool, hasToken: bool, s: State, e: Event, s': State)
    requires Runs.Reaches(Step, Init(hasToken), rule, s) && rule(s, e) && Step(s, e) == s'
    ensures Runs.Reaches(Step, Init(hasToken), rule, s')
  {
    Runs.ReachesNext(Step, Init(hasToken), rule, s, e);
  }

  /** A Connect on a closed transport, made while the loop of the lost connection is still there. */
  lemma ReachStaleLoop()
    ensures Runs.Reaches(Step, Init(true), Unrestricted, Stale(Link(false, false, false, 0, multiset{0}), AtTop))
  {
    var caller, writing := Thread(false, Dialling, 0, []), Thread(false, Writing, 0, []);
    var open := Link(true, false, false, 0, multiset{});
    var lost := Link(false, true, false, 0, multiset{0});
    var shut := Link(false, false, true, 0, multiset{0});
    Runs.ReachesStart(Step, Init(true), Unrestricted);
    Next(Unrestricted, true, Init(true), ConnectStarts, State(NewLink(), true, [caller], []));
    Next(Unrestricted, true, State(NewLink(), true, [caller], []), DialInstalls(0), State(open, true, [writing], []));
    Next(Unrestricted, true, State(open, true, [writing], []), DeviceDown,
         State(lost, true, [writing, NewLoop()], [OnDisconnect]));
    Next(Unrestricted, true, State(lost, true, [writing, NewLoop()], [OnDisconnect]), CloseCalled,
         State(shut, true, [writing, NewLoop()], [OnDisconnect]));
    Next(Unrestricted, true, State(shut, true, [writing, NewLoop()], [OnDisconnect]), ConnectStarts,
         State(shut.(closing := false), true, [writing, NewLoop(), caller], [OnDisconnect]));
  }

  /** The first caller, the stale loop at `pc`, and the second caller. */
  function Stale(link: Link, pc: Pc): State {
    State(link, true, [Thread(false, Writing, 0, []), NewLoop().(pc := pc), Thread(false, Dialling, 0, [])],
          [OnDisconnect])
  }

  /** It connects, and writes its token: nothing is reconnecting. */
  lemma StaleLoopSteps(idle: Link, up: Link)
    requires !idle.closing && up == Install(idle) && SendGuard(up).MayWrite?
    ensures Step(Stale(idle, AtTop), LoopChecks(1)) == Stale(idle, Dialling)
    ensures Step(Stale(idle, Dialling), DialInstalls(1)) == Stale(up, Writing)
    ensures Step(Stale(up, Writing), TokenSent(1)) == Stale(up, AwaitingAck)
  {
  }

  lemma ReachStaleLoopPastToken()
    ensures Runs.Reaches(Step, Init(true), Unrestricted, Stale(Link(true, false, false, 1, multiset{0}), AwaitingAck))
  {
    var idle, up := Link(false, false, false, 0, multiset{0}), Link(true, false, false, 1, multiset{0});
    ReachStaleLoop();
    assert idle.closes[0] == 1;
    StaleLoopSteps(idle, up);
    Runs.ReachesNext(Step, Init(true), Unrestricted, Stale(idle, AtTop), LoopChecks(1));
    Runs.ReachesNext(Step, Init(true), Unrestricted, Stale(idle, Dialling), DialInstalls(1));
    Runs.ReachesNext(Step, Init(true), Unrestricted, Stale(up, Writing), TokenSent(1));
  }

  /** With a stale loop, a transport with a token can recover: the condition is not an empty one. */
  lemma StaleLoopCanRecover() returns (s: State)
    ensures Runs.Reaches(Step, Init(true), Unrestricted, s)
    ensures s.hasToken && s.link.reconnecting && !s.link.closing && !s.link.connected && CanRecover(s)
  {
    var up := Stale(Link(true, false, false, 1, multiset{0}), AwaitingAck);
    ReachStaleLoopPastToken();
    s := Step(up, DeviceDown);
    Next(Unrestricted, true, up, DeviceDown, s);
    var es := RedialThenFinish(s, 3, 1);
  }

  // ---- a link nobody looks after ----

  /** The transport takes itself to be connected, or a loop is to bring the link back, or it was closed. */
  predicate Attended(l: Link) {
    l.connected || l.reconnecting || l.closing
  }

  /** A loop past its connect ends the reconnecting, though the link has been lost again. */
  predicate EndsOverDeadLink(s: State, e: Event) {
    && e.ConnectDone? && e.t < |s.threads| && s.threads[e.t].loop && s.threads[e.t].pc.Connected?
    && !s.link.connected && !s.link.closing
  }

  /** A Connect takes a closed transport over: its caller, and no loop, is to bring the link. */
  predicate TakesOver(s: State, e: Event) {
    e.ConnectStarts? && MayConnect(s.link) && !s.link.reconnecting
  }

  /**
   By its flags, every event keeps a transport attended, except a Connect that takes over and a loop
   that ends in vain.  (Whether the link is what the flags say is the subject of `BleLoss`.)
   */
  lemma AttendedExactly(s: State, e: Event)
    requires Attended(s.link)
    ensures Attended(Step(s, e).link) <==> !EndsOverDeadLink(s, e) && !TakesOver(s, e)
  {
  }

  /** A transport without a token, with one caller that is done and one loop. */
  function Single(link: Link, pc: Pc, trace: seq<Callback>): State {
    State(link, false, [Thread(false, Done, 0, []), NewLoop().(pc := pc)], trace)
  }

  /** The flags when the first link has been lost. */
  const LOST: Link := Link(false, true, false, 0, multiset{0})

  /** And its loss has been reported. */
  function LostOnce(link: Link, pc: Pc): State {
    Single(link, pc, [OnDisconnect])
  }

  function Caller(link: Link, pc: Pc): State {
    State(link, false, [Thread(false, pc, 0, [])], [])
  }

  /** A caller connects. */
  lemma CallerSteps(link: Link)
    ensures Step(Init(false), ConnectStarts) == Caller(NewLink(), Dialling)
    ensures Step(Caller(link, Dialling), DialInstalls(0)) == Caller(Install(link), Pc.Connected)
    ensures Step(Caller(link, Pc.Connected), ConnectDone(0)) == Caller(link, Done)
  {
  }

  lemma ReachUp()
    ensures Runs.Reaches(Step, Init(false), Unrestricted, Caller(Link(true, false, false, 0, multiset{}), Done))
  {
    var open := Link(true, false, false, 0, multiset{});
    CallerSteps(NewLink());
    CallerSteps(open);
    Runs.ReachesStart(Step, Init(false), Unrestricted);
    Runs.ReachesNext(Step, Init(false), Unrestricted, Init(false), ConnectStarts);
    assert Install(NewLink()) == open;
    Runs.ReachesNext(Step, Init(false), Unrestricted, Caller(NewLink(), Dialling), DialInstalls(0));
    Runs.ReachesNext(Step, Init(false), Unrestricted, Caller(open, Pc.Connected), ConnectDone(0));
  }

  /** The loop for a lost link dials, the link is lost again, and the loop is done. */
  lemma SingleSteps(lost: Link, up: Link, again: Link)
    requires !lost.closing && up == Install(lost) && !StartsLoop(up) && again == LinkDown(up)
    ensures var once, twice := [OnDisconnect], [OnDisconnect, OnDisconnect];
            && Step(Single(lost, AtTop, once), LoopChecks(1)) == Single(lost, Dialling, once)
            && Step(Single(lost, Dialling, once), DialInstalls(1)) == Single(up, Pc.Connected, once)
            && Step(Single(up, Pc.Connected, once), DeviceDown) == Single(again, Pc.Connected, twice)
            && Step(Single(again, Pc.Connected, twice), ConnectDone(1))
               == Single(EndReconnecting(again), Done, twice + [OnReconnect])
  {
  }

  lemma ReachFirstLoss()
    ensures Runs.Reaches(Step, Init(false), Unrestricted, LostOnce(LOST, AtTop))
  {
    ReachUp();
    Next(Unrestricted, false, Caller(Link(true, false, false, 0, multiset{}), Done), DeviceDown,
         LostOnce(LOST, AtTop));
  }

  /**
   So a link lost twice can stay lost without a token too: here no loop was started for the second
   loss, since `reconnecting` was still true, the first loop then clears it, and nothing is left that
   would ever dial.  The last the application hears is OnReconnect.
   */
  lemma SecondLossGoesUnattended() returns (s: State)
    ensures Runs.Reaches(Step, Init(false), Unrestricted, s)
    ensures !Attended(s.link) && StaysShut(s)
    ensures s.trace == [OnDisconnect, OnDisconnect, OnReconnect]
  {
    var lost, up := Link(false, true, false, 0, multiset{0}), Link(true, true, false, 1, multiset{0});
    var again := LinkDown(up);
    ReachFirstLoss();
    assert lost.closes[0] == 1;
    SingleSteps(lost, up, again);
    var once, twice := [OnDisconnect], [OnDisconnect, OnDisconnect];
    Runs.ReachesNext(Step, Init(false), Unrestricted, Single(lost, AtTop, once), LoopChecks(1));
    Runs.ReachesNext(Step, Init(false), Unrestricted, Single(lost, Dialling, once), DialInstalls(1));
    Runs.ReachesNext(Step, Init(false), Unrestricted, Single(up, Pc.Connected, once), DeviceDown);
    Runs.ReachesNext(Step, Init(false), Unrestricted, Single(again, Pc.Connected, twice), ConnectDone(1));
    s := Single(EndReconnecting(again), Done, twice + [OnReconnect]);
    IdleStaysShut(s);
  }

  /** Nothing is connected, and no goroutine is left. */
  ghost predicate Idle(s: State) {
    !s.link.connected && forall t :: 0 <= t < |s.threads| ==> s.threads[t].pc.Done?
  }

  lemma IdleStaysShut(s: State)
    requires Idle(s)
    ensures StaysShut(s)
  {
    forall s, e | Idle(s) && OnlyInFlight(s, e)
      ensures Idle(Step(s, e))
    {
    }
    forall es: seq<Event> | Runs.Abides(Step, s, OnlyInFlight, es)
      ensures !Runs.After(Step, s, es).link.connected
    {
      Runs.InvariantHolds(Step, s, OnlyInFlight, Idle, es);
    }
  }

  // ---- what does not hold ----

  /** A connected transport has an open close channel, so Receive can wait on it. */
  ghost predicate Usable(l: Link) {
    l.connected ==> !IsClosed(l)
  }

  /**
   Every event keeps a transport usable, except a report that the link is up while the close
   channel is closed: that sets `connected` and renews nothing.
   */
  lemma UsableExactlyUnlessUpWhileClosed(hasToken: bool, run: seq<Event>, e: Event)
    requires Usable(After(hasToken, run).link)
    ensures var s := After(hasToken, run);
            Usable(Step(s, e).link) <==> !(e.DeviceUp? && IsClosed(s.link))
  {
    var s := After(hasToken, run);
    ChannelAlways(hasToken, run);
    assert s.link.closes[s.link.closeCh + 1] == 0;
  }

  /** Such a report is possible: connect, lose the link, and have it reported up again. */
  lemma ConnectedWithClosedChannel() returns (es: seq<Event>)
    ensures After(false, es).link.connected && IsClosed(After(false, es).link)
  {
    es := [];
    var s := Init(false);
    es, s := Runs.Play(Step, Init(false), es, s, ConnectStarts);
    es, s := Runs.Play(Step, Init(false), es, s, DialInstalls(0));
    es, s := Runs.Play(Step, Init(false), es, s, DeviceDown);
    es, s := Runs.Play(Step, Init(false), es, s, DeviceUp);
  }

  /** No Connect and no report of the stack from here on. */
  predicate OnlyInFlight(s: State, e: Event) {
    !e.ConnectStarts? && !e.DeviceUp?
  }

  ghost predicate StaysShut(s: State) {
    forall es: seq<Event> :: Runs.Abides(Step, s, OnlyInFlight, es) ==> !Runs.After(Step, s, es).link.connected
  }

  predicate IsDialling(s: State, t: nat) {
    t < |s.threads| && s.threads[t].pc.Dialling?
  }

  ghost predicate ShutInv(s: State) {
    s.link.closing && !s.link.connected && forall t :: !IsDialling(s, t)
  }

  lemma StepKeepsShut(s: State, e: Event)
    requires ShutInv(s) && OnlyInFlight(s, e)
    ensures ShutInv(Step(s, e))
  {
    if e.DialInstalls? {
      assert !IsDialling(s, e.t);
    }
    forall t
      ensures !IsDialling(Step(s, e), t)
    {
      assert !IsDialling(s, t);
    }
  }

  /** No Connect from here on: the caller is done with the transport. */
  predicate NoConnect(s: State, e: Event) {
    !e.ConnectStarts?
  }

  /** The event connects a transport: the stack reports the link up, or a dial in flight succeeds. */
  predicate Revives(s: State, e: Event) {
    e.DeviceUp? || (e.DialInstalls? && IsDialling(s, e.t))
  }

  predicate DoesNotRevive(s: State, e: Event) {
    !Revives(s, e)
  }

  /** The transport is disconnected at every point of the run. */
  ghost predicate StaysDown(s: State, es: seq<Event>) {
    !Runs.After(Step, s, es).link.connected && (|es| > 0 ==> StaysDown(s, es[..|es| - 1]))
  }

  lemma ReviveStep(s: State, e: Event)
    requires !s.link.connected
    ensures Step(s, e).link.connected <==> Revives(s, e)
  {
  }

  lemma {:induction false} StaysDownExactly(s: State, es: seq<Event>)
    requires !s.link.connected
    ensures StaysDown(s, es) <==> Runs.Abides(Step, s, DoesNotRevive, es)
  {
    if |es| > 0 {
      var front := es[..|es| - 1];
      StaysDownExactly(s, front);
      if StaysDown(s, front) {
        ReviveStep(Runs.After(Step, s, front), es[|es| - 1]);
      }
    }
  }

  /** Once closing, nobody starts to dial without a Connect. */
  lemma {:induction false} NobodyStartsDialling(s: State, es: seq<Event>, t: nat)
    requires s.link.closing && Runs.Abides(Step, s, NoConnect, es)
    ensures Runs.After(Step, s, es).link.closing
    ensures IsDialling(Runs.After(Step, s, es), t) ==> IsDialling(s, t)
  {
    if |es| > 0 {
      var front, e := es[..|es| - 1], es[|es| - 1];
      NobodyStartsDialling(s, front, t);
      StaysClosing(Runs.After(Step, s, front), e, t);
    }
  }

  lemma StaysClosing(s: State, e: Event, t: nat)
    requires s.link.closing && NoConnect(s, e)
    ensures Step(s, e).link.closing && (IsDialling(Step(s, e), t) ==> IsDialling(s, t))
  {
  }

  /**
   After Close, in every run without a Connect: the transport is disconnected throughout exactly if
   the stack never reports the link up and no dial in flight succeeds; and a dial in flight is one
   that was when Close ran.  Only the loops' and callers' own doing considered, it stays so exactly
   when nobody was dialling.
   */
  lemma ShutExactly(hasToken: bool, run: seq<Event>, es: seq<Event>)
    requires Runs.Abides(Step, Step(After(hasToken, run), CloseCalled), NoConnect, es)
    ensures var s := Step(After(hasToken, run), CloseCalled);
            && (StaysDown(s, es) <==> Runs.Abides(Step, s, DoesNotRevive, es))
            && (forall t :: IsDialling(Runs.After(Step, s, es), t) ==> IsDialling(s, t))
            && (StaysShut(s) <==> forall t :: !IsDialling(s, t))
  {
    var s := Step(After(hasToken, run), CloseCalled);
    StaysDownExactly(s, es);
    forall t | IsDialling(Runs.After(Step, s, es), t)
      ensures IsDialling(s, t)
    {
      NobodyStartsDialling(s, es, t);
    }
    ShutExactlyWhenNoDial(hasToken, run);
  }

  /** The report can come late: Close has run, nobody dials, and Send would write again. */
  lemma LateReportRevives() returns (s: State)
    ensures Runs.Reaches(Step, Init(false), Unrestricted, s)
    ensures s.link.closing && SendGuard(s.link) == MayWrite
    ensures forall t :: 0 <= t < |s.threads| ==> s.threads[t].pc.Done?
  {
    var up, shut := Link(true, false, false, 0, multiset{}), Link(false, false, true, 0, multiset{0});
    ReachUp();
    Next(Unrestricted, false, Caller(up, Done), CloseCalled, Caller(shut, Done));
    s := Caller(LinkUp(shut), Done).(trace := [OnReconnect]);
    Next(Unrestricted, false, Caller(shut, Done), DeviceUp, s);
  }

  /** After Close the transport stays disconnected exactly when no connect was in flight. */
  lemma ShutExactlyWhenNoDial(hasToken: bool, run: seq<Event>)
    ensures var s := Step(After(hasToken, run), CloseCalled);
            StaysShut(s) <==> forall t :: !IsDialling(s, t)
  {
    var s := Step(After(hasToken, run), CloseCalled);
    if t :| IsDialling(s, t) {
      Runs.One(Step, s, OnlyInFlight, DialInstalls(t));
      assert Runs.After(Step, s, [DialInstalls(t)]).link.connected;
    } else {
      forall s, e | ShutInv(s) && OnlyInFlight(s, e)
        ensures ShutInv(Step(s, e))
      {
        StepKeepsShut(s, e);
      }
      forall es: seq<Event> | Runs.Abides(Step, s, OnlyInFlight, es)
        ensures !Runs.After(Step, s, es).link.connected
      {
        Runs.InvariantHolds(Step, s, OnlyInFlight, ShutInv, es);
      }
    }
  }
}
