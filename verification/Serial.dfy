/** The fields of the serial transport and its critical sections (transport/serial.go). */
module SerialLink {
  import opened Wrappers

  /**
   `scanner` is the connection the line scanner reads from; it is spent once its Scan has returned
   false.  `open` are the ports opened and not closed.
   */
  datatype Link = Link(
    conn: Option<nat>,
    scanner: Option<nat>,
    spent: bool,
    open: set<nat>,
    reconnecting: bool,
    done: bool)

  datatype SendVerdict = Reconnecting | NotConnected | MayWrite(conn: nat)

  function NewLink(): Link {
    Link(None, None, false, {}, false, false)
  }

  /** An opened port becomes the connection, with a scanner of its own. */
  function Adopt(l: Link, port: nat): Link {
    l.(conn := Some(port), scanner := Some(port), spent := false, open := l.open + {port})
  }

  /** Connect, whose handshake failed, closes the port and leaves the scanner behind. */
  function ConnectRejected(l: Link, port: nat): Link {
    Adopt(l, port).(conn := None, open := l.open - {port})
  }

  /** The current connection is closed. */
  function CloseConn(l: Link): Link {
    if l.conn.Some? then l.(open := l.open - {l.conn.value}) else l
  }

  /** The first section of reconnect: claim the loop, and close and give up the broken connection. */
  function Claim(l: Link): Link {
    CloseConn(l).(reconnecting := true, conn := None)
  }

  /** After a rejected handshake the loop closes the port it opened, whatever is current by then. */
  function AuthRejected(l: Link, port: nat): Link {
    l.(conn := None, scanner := None, open := l.open - {port})
  }

  function EndReconnecting(l: Link): Link {
    l.(reconnecting := false)
  }

  /** Scan has returned false. */
  function Spend(l: Link): Link {
    l.(spent := true)
  }

  /** After a clean end of input the reader makes a new scanner for the same connection. */
  function Rescan(l: Link): Link {
    l.(scanner := l.conn, spent := false)
  }

  function SignalDone(l: Link): Link {
    l.(done := true)
  }

  /** There is a connection, and the scanner reads from it, and is not spent. */
  predicate CanScan(l: Link) {
    l.conn.Some? && l.scanner == l.conn && !l.spent
  }

  /** The current connection can carry traffic. */
  predicate IsOpen(l: Link) {
    l.conn.Some? && l.conn.value in l.open
  }

  function SendGuard(l: Link): SendVerdict {
    if l.reconnecting then Reconnecting else if l.conn.None? then NotConnected else MayWrite(l.conn.value)
  }

  class Serial {
    var conn: Option<nat>
    var scanner: Option<nat>
    var spent: bool
    var open: set<nat>
    var reconnecting: bool
    var done: bool

    function View(): Link
      reads this
    {
      Link(conn, scanner, spent, open, reconnecting, done)
    }

    constructor ()
      ensures View() == NewLink()
    {
      conn, scanner, spent, open, reconnecting, done := None, None, false, {}, false, false;
    }

    /** Connect; `port` is what opening brought, `accepted` how the handshake ended. */
    method Connect(port: Option<nat>, accepted: bool) returns (ok: bool)
      modifies this
      ensures ok <==> port.Some? && accepted
      ensures View() ==
              if port.None? then old(View())
              else if accepted then Adopt(old(View()), port.value)
              else ConnectRejected(old(View()), port.value)
    {
      if port.None? {
        return false;
      }
      conn := port;
      scanner := port;
      spent := false;
      open := open + {port.value};
      if !accepted {
        open := open - {port.value};
        conn := None;
        return false;
      }
      return true;
    }

    method ClaimReconnect() returns (mine: bool)
      modifies this
      ensures mine <==> !old(reconnecting)
      ensures View() == if mine then Claim(old(View())) else old(View())
    {
      if reconnecting {
        return false;
      }
      reconnecting := true;
      if conn.Some? {
        open := open - {conn.value};
        conn := None;
      }
      return true;
    }

    /** The section of the reconnect loop after a successful open. */
    method InstallPort(port: nat)
      modifies this
      ensures View() == Adopt(old(View()), port)
    {
      conn := Some(port);
      scanner := Some(port);
      spent := false;
      open := open + {port};
    }

    /** The reconnect loop after a rejected handshake: it closes its port, and gives it up. */
    method DropPort(port: nat)
      modifies this
      ensures View() == AuthRejected(old(View()), port)
    {
      open := open - {port};
      conn := None;
      scanner := None;
    }

    /** The section of the reconnect loop after an accepted handshake. */
    method FinishReconnect()
      modifies this
      ensures View() == EndReconnecting(old(View()))
    {
      reconnecting := false;
    }

    /** The section of the reconnect loop that finds the transport closed. */
    method AbandonReconnect()
      modifies this
      ensures View() == EndReconnecting(old(View()))
    {
      reconnecting := false;
    }

    /** The reader's Scan, when it returns false. */
    method ScanReturnsFalse()
      modifies this
      ensures View() == Spend(old(View()))
    {
      spent := true;
    }

    method NewScanner()
      modifies this
      ensures View() == Rescan(old(View()))
    {
      scanner := conn;
      spent := false;
    }

    method BeforeWrite() returns (verdict: SendVerdict)
      ensures verdict == SendGuard(View())
    {
      if reconnecting {
        return Reconnecting;
      }
      if conn.None? {
        return NotConnected;
      }
      return MayWrite(conn.value);
    }

    /** Close signals first, and takes the lock afterwards. */
    method CloseDone()
      modifies this
      ensures View() == SignalDone(old(View()))
    {
      done := true;
    }

    method CloseCurrent()
      modifies this
      ensures View() == CloseConn(old(View()))
    {
      if conn.Some? {
        open := open - {conn.value};
      }
    }
  }
}

/** The reader goroutine, Connect and Close, interleaved. */
module SerialRuns {
  import opened Wrappers
  import opened SerialLink
  import opened Callbacks
  import Backoff
  import Runs

  /** Where a reader is.  From `Notifying` to `Abandoning` it is inside its reconnect loop. */
  datatype Pc =
    | AtTop
    | AtScan
    | Delivering
    | Entering
    | Notifying
    | LoopTop(delay: nat, slept: seq<nat>)
    | Opening(delay: nat, slept: seq<nat>)
    | Authenticating(delay: nat, slept: seq<nat>, port: nat)
    | Reporting
    | Abandoning
    | Exited

  predicate InLoop(pc: Pc) {
    pc.Notifying? || pc.LoopTop? || pc.Opening? || pc.Authenticating? || pc.Abandoning?
  }

  datatype CloseStage = NotClosed | DoneSignalled | Closed

  datatype State = State(link: Link, readers: seq<Pc>, closing: CloseStage, ports: nat, trace: seq<Callback>)

  function Init(): State {
    State(NewLink(), [], NotClosed, 0, [])
  }

  datatype Event =
    | ConnectOpens(accepted: bool)
    | CloseSignals
    | CloseLocks
    | TopChecks(r: nat)
    | ScanLine(r: nat)
    | LineTaken(r: nat)
    | DoneWhileDelivering(r: nat)
    | ScanErrors(r: nat)
    | ScanEnds(r: nat)
    | LockTaken(r: nat)
    | DisconnectReported(r: nat)
    | LoopChecks(r: nat)
    | OpenFails(r: nat)
    | OpenSucceeds(r: nat)
    | AuthSucceeds(r: nat)
    | AuthFails(r: nat)
    | ReconnectReported(r: nat)
    | Abandoned(r: nat)

  function Goto(s: State, r: nat, pc: Pc): State
    requires r < |s.readers|
  {
    s.(readers := s.readers[r := pc])
  }

  function Step(s: State, e: Event): State {
    if e.ConnectOpens? then
      if e.accepted then
        s.(link := Adopt(s.link, s.ports), ports := s.ports + 1, readers := s.readers + [AtTop])
      else s.(link := ConnectRejected(s.link, s.ports), ports := s.ports + 1)
    else if e.CloseSignals? then
      if s.closing.NotClosed? then s.(link := SignalDone(s.link), closing := DoneSignalled) else s
    else if e.CloseLocks? then
      if s.closing.DoneSignalled? then s.(link := CloseConn(s.link), closing := Closed) else s
    else if e.r >= |s.readers| then s
    else
      var pc := s.readers[e.r];
      match e
      case TopChecks(r) => if pc.AtTop? then Goto(s, r, if s.link.done then Exited else AtScan) else s
      case ScanLine(r) => if pc.AtScan? then Goto(s, r, Delivering) else s
      case LineTaken(r) => if pc.Delivering? then Goto(s, r, AtTop) else s
      case DoneWhileDelivering(r) => if pc.Delivering? && s.link.done then Goto(s, r, Exited) else s
      case ScanErrors(r) =>
        if pc.AtScan? then Goto(s.(link := Spend(s.link)), r, if s.link.done then Exited else Entering) else s
      case ScanEnds(r) =>
        if !pc.AtScan? then s
        else if s.link.done then Goto(s.(link := Spend(s.link)), r, Exited)
        else Goto(s.(link := Rescan(Spend(s.link))), r, AtTop)
      case LockTaken(r) =>
        if !pc.Entering? then s
        else if s.link.reconnecting then Goto(s, r, AtTop)
        else Goto(s.(link := Claim(s.link)), r, Notifying)
      case DisconnectReported(r) =>
        if !pc.Notifying? then s
        else Goto(s.(trace := s.trace + [OnDisconnect]), r, LoopTop(Backoff.FIRST_DELAY, []))
      case LoopChecks(r) =>
        if !pc.LoopTop? then s
        else Goto(s, r, if s.link.done then Abandoning else Opening(pc.delay, pc.slept + [pc.delay]))
      case OpenFails(r) =>
        if pc.Opening? then Goto(s, r, LoopTop(Backoff.NextDelay(pc.delay), pc.slept)) else s
      case OpenSucceeds(r) =>
        if !pc.Opening? then s
        else
          var pc' := Authenticating(pc.delay, pc.slept, s.ports);
          Goto(s.(link := Adopt(s.link, s.ports), ports := s.ports + 1), r, pc')
      case AuthSucceeds(r) =>
        if pc.Authenticating? then Goto(s.(link := EndReconnecting(s.link)), r, Reporting) else s
      case AuthFails(r) =>
        if !pc.Authenticating? then s
        else Goto(s.(link := AuthRejected(s.link, pc.port)), r, LoopTop(Backoff.NextDelay(pc.delay), pc.slept))
      case ReconnectReported(r) =>
        if pc.Reporting? then Goto(s.(trace := s.trace + [OnReconnect]), r, AtTop) else s
      case Abandoned(r) => if pc.Abandoning? then Goto(s.(link := EndReconnecting(s.link)), r, Exited) else s
      case _ => s
  }

  ghost function After(es: seq<Event>): State {
    Runs.After(Step, Init(), es)
  }

  predicate Unrestricted(s: State, e: Event) {
    true
  }

  // ---- one reader ----

  /** Connect opens a port only before a reader has been started. */
  predicate OneConnect(s: State, e: Event) {
    e.ConnectOpens? ==> |s.readers| == 0
  }

  /** A reader at a Scan, its own or the handshake's, has a scanner to call, on the current connection. */
  ghost predicate ScansSafely(s: State) {
    forall r :: 0 <= r < |s.readers| && (s.readers[r].AtScan? || s.readers[r].Authenticating?) ==> CanScan(s.link)
  }

  /** The link as it must be for a reader at `pc`. */
  predicate LinkFits(l: Link, pc: Pc) {
    if pc.Exited? then true
    else if pc.Authenticating? then l.reconnecting && CanScan(l)
    else if InLoop(pc) then l.reconnecting && l.conn.None?
    else if pc.Entering? then !l.reconnecting && l.conn.Some?
    else !l.reconnecting && CanScan(l)
  }

  predicate OnBackoff(pc: Pc) {
    pc.LoopTop? || pc.Opening? || pc.Authenticating?
  }

  /** The schedule of a loop, before (`LoopTop`) and after its sleep. */
  ghost predicate PcOnSchedule(pc: Pc) {
    && (pc.LoopTop? ==> Backoff.OnSchedule(pc.delay, pc.slept))
    && (pc.Opening? || pc.Authenticating? ==>
          && |pc.slept| > 0 && pc.slept[|pc.slept| - 1] == pc.delay
          && Backoff.OnSchedule(pc.delay, pc.slept[..|pc.slept| - 1]))
  }

  /** A disconnect has been reported and its mending has not: at these points, and after giving up. */
  predicate Owes(pc: Pc) {
    OnBackoff(pc) || pc.Reporting? || pc.Abandoning?
  }

  ghost predicate Inv(s: State) {
    && |s.readers| <= 1
    && Alternates(s.trace)
    && (|s.readers| == 0 ==> s.trace == [])
    && (|s.readers| == 0 ==> !s.link.reconnecting)
    && (forall r :: 0 <= r < |s.readers| ==>
          && LinkFits(s.link, s.readers[r])
          && PcOnSchedule(s.readers[r])
          && (s.readers[r].Exited? || s.readers[r].Abandoning? ==> s.link.done)
          && (!s.readers[r].Exited? ==> (Owes(s.readers[r]) <==> |s.trace| % 2 == 1)))
  }

  lemma ScheduleStep(s: State, e: Event, r: nat)
    requires r < |s.readers| && PcOnSchedule(s.readers[r])
    ensures PcOnSchedule(Step(s, e).readers[r])
  {
    var pc := s.readers[r];
    if pc.LoopTop? {
      assert (pc.slept + [pc.delay])[..|pc.slept|] == pc.slept;
    } else if pc.Opening? || pc.Authenticating? {
      var n := |pc.slept| - 1;
      assert pc.slept == pc.slept[..n] + [pc.delay];
      Backoff.SleepStaysOnSchedule(pc.delay, pc.slept[..n]);
    }
  }

  lemma LinkStep(s: State, e: Event)
    requires |s.readers| == 1 && LinkFits(s.link, s.readers[0]) && !e.ConnectOpens?
    requires s.readers[0].Exited? || s.readers[0].Abandoning? ==> s.link.done
    ensures var s' := Step(s, e);
            && |s'.readers| == 1 && LinkFits(s'.link, s'.readers[0])
            && (s'.readers[0].Exited? || s'.readers[0].Abandoning? ==> s'.link.done)
  {
  }

  lemma TraceStep(s: State, e: Event)
    requires |s.readers| == 1 && Alternates(s.trace) && !e.ConnectOpens?
    requires !s.readers[0].Exited? ==> (Owes(s.readers[0]) <==> |s.trace| % 2 == 1)
    ensures var s' := Step(s, e);
            && |s'.readers| == 1 && Alternates(s'.trace)
            && (!s'.readers[0].Exited? ==> (Owes(s'.readers[0]) <==> |s'.trace| % 2 == 1))
  {
  }

  lemma StepKeepsInv(s: State, e: Event)
    requires Inv(s) && OneConnect(s, e)
    ensures Inv(Step(s, e))
  {
    if |s.readers| == 1 {
      ScheduleStep(s, e, 0);
      LinkStep(s, e);
      TraceStep(s, e);
    }
  }

  lemma InvAlways(es: seq<Event>)
    requires Runs.Abides(Step, Init(), OneConnect, es)
    ensures Inv(After(es))
  {
    forall s, e | Inv(s) && OneConnect(s, e)
      ensures Inv(Step(s, e))
    {
      StepKeepsInv(s, e);
    }
    Runs.InvariantHolds(Step, Init(), OneConnect, Inv, es);
  }

  /**
   With one Connect, across any failures to read, to open and to authenticate: a reader about to
   scan has a scanner on the current connection that is not spent, Send finds a connection whenever it is not told
   to wait, and the reports strictly alternate, starting with OnDisconnect.
   */
  lemma ReaderIsWellFormed(es: seq<Event>)
    requires Runs.Abides(Step, Init(), OneConnect, es)
    ensures var s := After(es);
            && ScansSafely(s)
            && Alternates(s.trace)
            && ((exists r :: 0 <= r < |s.readers| && !s.readers[r].Exited?) ==> !SendGuard(s.link).NotConnected?)
  {
    InvAlways(es);
  }

  lemma SleptOnSchedule(pc: Pc)
    requires OnBackoff(pc) && PcOnSchedule(pc)
    ensures forall k :: 0 <= k < |pc.slept| ==> pc.slept[k] == Backoff.DelayAt(k)
  {
    if !pc.LoopTop? {
      var n := |pc.slept| - 1;
      assert pc.slept == pc.slept[..n] + [pc.delay];
    }
  }

  /** The sleeps of a reconnect are 1, 2, 4, 8, 16, 30, 30, ... seconds, so many in all. */
  lemma LoopBacksOff(es: seq<Event>, r: nat)
    requires Runs.Abides(Step, Init(), OneConnect, es)
    requires r < |After(es).readers| && OnBackoff(After(es).readers[r])
    ensures var slept := After(es).readers[r].slept;
            && (forall k :: 0 <= k < |slept| ==> slept[k] == Backoff.DelayAt(k))
            && Backoff.TotalDelay(slept) == if |slept| <= 5 then Backoff.Pow2(|slept|) - 1 else 31 + 30 * (|slept| - 5)
  {
    InvAlways(es);
    var pc := After(es).readers[r];
    SleptOnSchedule(pc);
    Backoff.TotalOnSchedule(pc.slept);
  }

  // ---- ports ----

  /** Every port that is open is the current connection. */
  predicate NoLeak(s: State) {
    forall p :: p in s.link.open ==> s.link.conn == Some(p)
  }

  /** No port is left open; and the connection is, unless Close has run. */
  ghost predicate PortInv(s: State) {
    && NoLeak(s)
    && (s.link.conn.Some? && !s.closing.Closed? ==> s.link.conn.value in s.link.open)
    && (forall r :: 0 <= r < |s.readers| && s.readers[r].Authenticating? ==> s.link.conn == Some(s.readers[r].port))
  }

  lemma StepKeepsPorts(s: State, e: Event)
    requires Inv(s) && PortInv(s) && (e.ConnectOpens? ==> |s.readers| == 0 && s.link.conn.None?)
    ensures PortInv(Step(s, e))
  {
    if |s.readers| == 1 && !e.ConnectOpens? {
      assert LinkFits(s.link, s.readers[0]);
      PortStep(s, e);
    }
  }

  lemma PortStep(s: State, e: Event)
    requires |s.readers| == 1 && LinkFits(s.link, s.readers[0]) && PortInv(s) && !e.ConnectOpens?
    ensures PortInv(Step(s, e))
  {
  }

  /** Before a reader has been started no connection is kept. */
  ghost predicate QuietInv(s: State) {
    Inv(s) && PortInv(s) && (|s.readers| == 0 ==> s.link.conn.None?)
  }

  lemma StepKeepsQuiet(s: State, e: Event)
    requires QuietInv(s) && OneConnect(s, e)
    ensures QuietInv(Step(s, e))
  {
    StepKeepsInv(s, e);
    StepKeepsPorts(s, e);
    if |s.readers| == 0 && !e.ConnectOpens? {
      assert Step(s, e).link.conn == s.link.conn;
    }
  }

  lemma QuietAlways(es: seq<Event>)
    requires Runs.Abides(Step, Init(), OneConnect, es)
    ensures QuietInv(After(es))
  {
    forall s, e | QuietInv(s) && OneConnect(s, e)
      ensures QuietInv(Step(s, e))
    {
      StepKeepsQuiet(s, e);
    }
    Runs.InvariantHolds(Step, Init(), OneConnect, QuietInv, es);
  }

  /**
   With one Connect, across any failures and handshakes: every port ever opened has been closed, but
   for the current connection, which is open until Close has run.  And the next event leaves a port
   behind exactly if it is a Connect made while the connection is open.
   */
  lemma PortsExactly(es: seq<Event>, e: Event)
    requires Runs.Abides(Step, Init(), OneConnect, es)
    ensures var s := After(es);
            && NoLeak(s)
            && (s.link.conn.Some? && !s.closing.Closed? ==> IsOpen(s.link))
            && (NoLeak(Step(s, e)) <==> !(e.ConnectOpens? && IsOpen(s.link)))
  {
    var s := After(es);
    QuietAlways(es);
    ConnAlwaysLast(es);
    if !e.ConnectOpens? {
      StepKeepsPorts(s, e);
    } else {
      LeakStep(s, e);
    }
  }

  /** A port that is open has been opened. */
  lemma LeakStep(s: State, e: Event)
    requires QuietInv(s) && ConnIsLast(s) && e.ConnectOpens?
    ensures NoLeak(Step(s, e)) <==> !IsOpen(s.link)
  {
    if IsOpen(s.link) {
      assert s.link.conn.value in Step(s, e).link.open;
    }
  }

  /** The event has a port opened: by a Connect, whatever its handshake then brings, or by a loop. */
  predicate Opens(s: State, e: Event) {
    e.ConnectOpens? || (e.OpenSucceeds? && e.r < |s.readers| && s.readers[e.r].Opening?)
  }

  /**
   Which events give the transport a scanner, and which take it: each port opened has one of its own,
   which a rejected Connect leaves behind; a rejected re-authentication takes it; a clean end of input
   gives a fresh one for the current connection; the others leave it.
   */
  lemma ScannerExactly(es: seq<Event>, e: Event)
    ensures var s, s' := After(es), After(es + [e]);
            if Opens(s, e) then s'.link.scanner == Some(s.ports) && !s'.link.spent
            else if e.AuthFails? && e.r < |s.readers| && s.readers[e.r].Authenticating? then s'.link.scanner == None
            else if e.ScanEnds? && e.r < |s.readers| && s.readers[e.r].AtScan? && !s.link.done then
              s'.link.scanner == s'.link.conn == s.link.conn && !s'.link.spent
            else s'.link.scanner == s.link.scanner
  {
    Runs.Extend(Step, Init(), es, e);
  }

  // ---- Send ----

  /** Reader `r` owns the reconnect loop. */
  predicate IsOwner(s: State, r: nat) {
    r < |s.readers| && InLoop(s.readers[r])
  }

  ghost predicate OwnerInv(s: State) {
    && (s.link.reconnecting <==> exists r: nat :: IsOwner(s, r))
    && (forall r: nat, q: nat :: IsOwner(s, r) && IsOwner(s, q) ==> r == q)
  }

  lemma OwnerStep(s: State, e: Event, r: nat)
    ensures IsOwner(s, r) && !IsOwner(Step(s, e), r) ==>
              (e.AuthSucceeds? || e.Abandoned?) && e.r == r && !Step(s, e).link.reconnecting
    ensures !IsOwner(s, r) && IsOwner(Step(s, e), r) ==>
              e == LockTaken(r) && !s.link.reconnecting && Step(s, e).link.reconnecting
  {
  }

  lemma ReconnectingStep(s: State, e: Event)
    ensures s.link.reconnecting && !Step(s, e).link.reconnecting ==> IsOwner(s, e.r) && !IsOwner(Step(s, e), e.r)
    ensures !s.link.reconnecting && Step(s, e).link.reconnecting ==> IsOwner(Step(s, e), e.r)
  {
  }

  lemma StepKeepsOwner(s: State, e: Event)
    requires OwnerInv(s)
    ensures OwnerInv(Step(s, e))
  {
    var s' := Step(s, e);
    ReconnectingStep(s, e);
    forall r: nat
      ensures IsOwner(s, r) && !IsOwner(s', r) ==>
                (e.AuthSucceeds? || e.Abandoned?) && e.r == r && !s'.link.reconnecting
      ensures !IsOwner(s, r) && IsOwner(s', r) ==> e == LockTaken(r) && !s.link.reconnecting && s'.link.reconnecting
    {
      OwnerStep(s, e, r);
    }
    if s.link.reconnecting && s'.link.reconnecting {
      var r: nat :| IsOwner(s, r);
      assert IsOwner(s', r);
    }
  }

  /** There is no connection, or it is the port opened last. */
  predicate ConnIsLast(s: State) {
    s.link.conn.Some? ==> s.link.conn.value + 1 == s.ports
  }

  lemma StepKeepsConn(s: State, e: Event)
    requires ConnIsLast(s)
    ensures ConnIsLast(Step(s, e))
  {
  }

  lemma ConnAlwaysLast(es: seq<Event>)
    ensures ConnIsLast(After(es))
  {
    forall s, e | ConnIsLast(s) && Unrestricted(s, e)
      ensures ConnIsLast(Step(s, e))
    {
      StepKeepsConn(s, e);
    }
    Runs.AnyRunAbides(Step, Init(), Unrestricted, es);
    Runs.InvariantHolds(Step, Init(), Unrestricted, ConnIsLast, es);
  }

  /**
   What Send meets in every run, with any number of Connects: it is told to wait exactly while some
   reader owns the reconnect loop, its re-authentication included, and else it finds no connection or
   writes to the port opened last.
   */
  lemma SendGuardExactly(es: seq<Event>)
    ensures var s := After(es);
            && (SendGuard(s.link).Reconnecting? <==> exists r: nat :: IsOwner(s, r))
            && (SendGuard(s.link).NotConnected? <==> s.link.conn.None? && forall r: nat :: !IsOwner(s, r))
            && (SendGuard(s.link).MayWrite? ==> SendGuard(s.link).conn + 1 == s.ports)
            && (forall r: nat :: r < |s.readers| && s.readers[r].Authenticating? ==> SendGuard(s.link).Reconnecting?)
  {
    forall s, e | OwnerInv(s) && Unrestricted(s, e)
      ensures OwnerInv(Step(s, e))
    {
      StepKeepsOwner(s, e);
    }
    Runs.AnyRunAbides(Step, Init(), Unrestricted, es);
    Runs.InvariantHolds(Step, Init(), Unrestricted, OwnerInv, es);
    ConnAlwaysLast(es);
    forall r: nat | r < |After(es).readers| && After(es).readers[r].Authenticating?
      ensures SendGuard(After(es).link).Reconnecting?
    {
      assert IsOwner(After(es), r);
    }
  }

  // ---- two readers ----

  /** Some run without any further Connect brings a reader to its Scan without a current connection. */
  ghost predicate CanMisscan(s: State) {
    exists es: seq<Event> :: Runs.Abides(Step, s, NoConnect, es) && !ScansSafely(Runs.After(Step, s, es))
  }

  predicate NoConnect(s: State, e: Event) {
    !e.ConnectOpens?
  }

  /** How far a reader is from giving the connection up. */
  function Distance(pc: Pc): nat {
    match pc
    case Notifying => 4
    case LoopTop(_, _) => 3
    case Opening(_, _) => 2
    case Authenticating(_, _, _) => 1
    case Entering => 1
    case AtScan => 2
    case AtTop => 3
    case Delivering => 4
    case Reporting => 4
    case _ => 0
  }

  function NextEvent(pc: Pc, r: nat): Event {
    match pc
    case Notifying => DisconnectReported(r)
    case LoopTop(_, _) => LoopChecks(r)
    case Opening(_, _) => OpenSucceeds(r)
    case Authenticating(_, _, _) => AuthFails(r)
    case Entering => LockTaken(r)
    case AtScan => ScanErrors(r)
    case AtTop => TopChecks(r)
    case Delivering => LineTaken(r)
    case _ => ReconnectReported(r)
  }

  /** Two readers: the second at its Scan, the first free to go on. */
  ghost predicate Paired(s: State) {
    && |s.readers| == 2 && s.readers[1] == AtScan && !s.link.done
    && !s.readers[0].Exited? && !s.readers[0].Abandoning?
    && (s.link.reconnecting <==> InLoop(s.readers[0]))
  }

  /** The first reader, driven on, takes the connection away from under the second one's Scan. */
  lemma FirstReaderTakesConn(s: State) returns (es: seq<Event>)
    requires Paired(s)
    ensures Runs.Abides(Step, s, NoConnect, es) && !ScansSafely(Runs.After(Step, s, es))
    decreases Distance(s.readers[0])
  {
    var e := NextEvent(s.readers[0], 0);
    var s1 := Step(s, e);
    Runs.One(Step, s, NoConnect, e);
    if s.readers[0].Entering? || s.readers[0].Authenticating? {
      es := [e];
      assert s1.link.conn.None? && s1.readers[1] == AtScan;
    } else {
      var rest := FirstReaderTakesConn(s1);
      Runs.Join(Step, s, NoConnect, [e], rest);
      es := [e] + rest;
    }
  }

  /** The reader goes on to a Scan without giving up its connection first, or is at one. */
  predicate ScansNext(pc: Pc) {
    pc.AtTop? || pc.AtScan? || pc.Delivering? || pc.Reporting? || pc.Authenticating?
  }

  /** A reader whose connection has been taken away, driven on to its next Scan. */
  lemma ReaderMissesConn(s: State) returns (es: seq<Event>)
    requires |s.readers| == 1 && ScansNext(s.readers[0]) && !s.link.done && s.link.conn.None?
    ensures Runs.Abides(Step, s, NoConnect, es) && !ScansSafely(Runs.After(Step, s, es))
    decreases Distance(s.readers[0])
  {
    if s.readers[0].AtScan? || s.readers[0].Authenticating? {
      return [];
    }
    var e := NextEvent(s.readers[0], 0);
    Runs.One(Step, s, NoConnect, e);
    var rest := ReaderMissesConn(Step(s, e));
    Runs.Join(Step, s, NoConnect, [e], rest);
    es := [e] + rest;
  }

  /** The invariant, or a reader about to give up a connection it no longer has. */
  ghost predicate LooseInv(s: State) {
    || Inv(s)
    || (|s.readers| == 1 && s.readers[0].Entering? && !s.link.reconnecting && Alternates(s.trace) && |s.trace| % 2 == 0)
  }

  lemma StepKeepsLoose(s: State, e: Event)
    requires LooseInv(s) && NoConnect(s, e)
    ensures LooseInv(Step(s, e))
  {
    if Inv(s) {
      StepKeepsInv(s, e);
    }
  }

  lemma LooseNeverMisscans(s: State)
    requires LooseInv(s)
    ensures !CanMisscan(s)
  {
    forall s, e | LooseInv(s) && NoConnect(s, e)
      ensures LooseInv(Step(s, e))
    {
      StepKeepsLoose(s, e);
    }
    forall es: seq<Event> | Runs.Abides(Step, s, NoConnect, es)
      ensures ScansSafely(Runs.After(Step, s, es))
    {
      Runs.InvariantHolds(Step, s, NoConnect, LooseInv, es);
    }
  }

  /** A second Connect that succeeds starts a second reader, and the first can take its connection. */
  lemma SecondReaderMisscans(s: State)
    requires Inv(s) && |s.readers| == 1 && !s.link.done
    ensures CanMisscan(Step(s, ConnectOpens(true)))
  {
    var s1 := Step(s, ConnectOpens(true));
    var s2 := Step(s1, TopChecks(1));
    assert Paired(s2);
    var rest := FirstReaderTakesConn(s2);
    Runs.One(Step, s1, NoConnect, TopChecks(1));
    Runs.Join(Step, s1, NoConnect, [TopChecks(1)], rest);
  }

  lemma RejectedConnectKeepsLoose(s: State)
    requires Inv(s) && |s.readers| == 1 && !s.link.done && !ScansNext(s.readers[0])
    ensures LooseInv(Step(s, ConnectOpens(false)))
  {
    var s1 := Step(s, ConnectOpens(false));
    assert s1.readers == s.readers && s1.trace == s.trace;
    assert s1.readers[0].Entering? || LinkFits(s1.link, s1.readers[0]);
  }

  /** At a Scan, the reader's own or the handshake's. */
  predicate AtSomeScan(pc: Pc) {
    pc.AtScan? || pc.Authenticating?
  }

  /** Close has begun: no reader but the first is to scan again, and that one has its connection. */
  ghost predicate WindsDown(s: State) {
    && s.link.done && |s.readers| > 0
    && (AtSomeScan(s.readers[0]) ==> CanScan(s.link))
    && forall r :: 0 < r < |s.readers| ==> s.readers[r].AtTop? || s.readers[r].Exited?
  }

  lemma StepKeepsWindingDown(s: State, e: Event)
    requires WindsDown(s) && NoConnect(s, e)
    ensures WindsDown(Step(s, e))
  {
  }

  lemma WindingDownNeverMisscans(s: State)
    requires WindsDown(s)
    ensures !CanMisscan(s)
  {
    forall s, e | WindsDown(s) && NoConnect(s, e)
      ensures WindsDown(Step(s, e))
    {
      StepKeepsWindingDown(s, e);
    }
    forall es: seq<Event> | Runs.Abides(Step, s, NoConnect, es)
      ensures ScansSafely(Runs.After(Step, s, es))
    {
      Runs.InvariantHolds(Step, s, NoConnect, WindsDown, es);
    }
  }

  /** A second Connect after Close has begun does harm only to a reader at its Scan, if it is rejected. */
  lemma LateConnect(s: State, accepted: bool)
    requires Inv(s) && |s.readers| == 1 && s.link.done
    ensures CanMisscan(Step(s, ConnectOpens(accepted))) <==> !accepted && AtSomeScan(s.readers[0])
  {
    var s1 := Step(s, ConnectOpens(accepted));
    if !accepted && AtSomeScan(s.readers[0]) {
      var es: seq<Event> := [];
      assert Runs.Abides(Step, s1, NoConnect, es) && !ScansSafely(Runs.After(Step, s1, es));
    } else {
      WindingDownNeverMisscans(s1);
    }
  }

  /**
   The condition is exact: after a run with one Connect, an event lets some reader scan without a
   current connection exactly if it is a second Connect, and one that is accepted or takes the
   connection from a reader about to scan; once Close has begun, only if it is rejected and takes the
   connection from a reader at its Scan.
   */
  lemma MisscanExactlyWithSecondConnect(run: seq<Event>, e: Event)
    requires Runs.Abides(Step, Init(), OneConnect, run)
    ensures var s := After(run);
            CanMisscan(Step(s, e)) <==>
              && e.ConnectOpens? && |s.readers| == 1
              && if s.link.done then !e.accepted && AtSomeScan(s.readers[0])
                 else e.accepted || ScansNext(s.readers[0])
  {
    var s := After(run);
    InvAlways(run);
    if !e.ConnectOpens? || |s.readers| == 0 {
      StepKeepsInv(s, e);
      LooseNeverMisscans(Step(s, e));
    } else if s.link.done {
      LateConnect(s, e.accepted);
    } else if e.accepted {
      SecondReaderMisscans(s);
    } else if ScansNext(s.readers[0]) {
      var es := ReaderMissesConn(Step(s, e));
    } else {
      RejectedConnectKeepsLoose(s);
      LooseNeverMisscans(Step(s, e));
    }
  }

  // ---- after Close ----

  /** A reader past its check of done, on its way to open the port. */
  predicate IsOpening(s: State, r: nat) {
    r < |s.readers| && s.readers[r].Opening?
  }

  /** Whatever the readers still in flight do, the transport has no open current connection. */
  ghost predicate StaysShut(s: State) {
    forall es: seq<Event> :: Runs.Abides(Step, s, NoConnect, es) ==> !IsOpen(Runs.After(Step, s, es).link)
  }

  /** Some run without a Connect lets Send write to an open port. */
  ghost predicate CanWriteAgain(s: State) {
    exists es: seq<Event> ::
      Runs.Abides(Step, s, NoConnect, es)
      && SendGuard(Runs.After(Step, s, es).link).MayWrite? && IsOpen(Runs.After(Step, s, es).link)
  }

  ghost predicate ShutInv(s: State) {
    s.link.done && s.closing.Closed? && !IsOpen(s.link) && forall r: nat :: !IsOpening(s, r)
  }

  lemma StepKeepsShut(s: State, e: Event)
    requires ShutInv(s) && NoConnect(s, e)
    ensures ShutInv(Step(s, e))
  {
    if e.OpenSucceeds? {
      assert !IsOpening(s, e.r);
    }
    forall r: nat
      ensures !IsOpening(Step(s, e), r)
    {
      assert !IsOpening(s, r);
    }
  }

  /** Once Close has run, done is signalled. */
  lemma ClosedIsDone(es: seq<Event>)
    ensures !After(es).closing.NotClosed? ==> After(es).link.done
  {
    var inv := (s: State) => !s.closing.NotClosed? ==> s.link.done;
    Runs.AnyRunAbides(Step, Init(), Unrestricted, es);
    Runs.InvariantHolds(Step, Init(), Unrestricted, inv, es);
  }

  /** The port is opened, and the handshake accepted. */
  lemma OpeningWritesAgain(s: State, r: nat)
    requires IsOpening(s, r)
    ensures CanWriteAgain(s) && !StaysShut(s)
  {
    var es := [OpenSucceeds(r), AuthSucceeds(r)];
    Runs.Two(Step, s, NoConnect, OpenSucceeds(r), AuthSucceeds(r));
    assert Runs.Abides(Step, s, NoConnect, es) && IsOpen(Runs.After(Step, s, es).link);
  }

  /**
   After Close has run, the transport stays shut exactly when no reader was past its check of done: an
   open in flight is not cancelled, and installs its port, to which Send may write again.
   */
  lemma ShutExactlyWhenNotOpening(run: seq<Event>)
    requires After(run).closing.DoneSignalled?
    ensures var s := Step(After(run), CloseLocks);
            && (StaysShut(s) <==> forall r: nat :: !IsOpening(s, r))
            && (CanWriteAgain(s) <==> exists r: nat :: IsOpening(s, r))
  {
    ClosedIsDone(run);
    var s := Step(After(run), CloseLocks);
    if r: nat :| IsOpening(s, r) {
      OpeningWritesAgain(s, r);
    } else {
      forall s, e | ShutInv(s) && NoConnect(s, e)
        ensures ShutInv(Step(s, e))
      {
        StepKeepsShut(s, e);
      }
      forall es: seq<Event> | Runs.Abides(Step, s, NoConnect, es)
        ensures !IsOpen(Runs.After(Step, s, es).link)
      {
        Runs.InvariantHolds(Step, s, NoConnect, ShutInv, es);
      }
    }
  }
}
