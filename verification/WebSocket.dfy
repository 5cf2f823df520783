/** The fields of the WebSocket transport and its critical sections (transport/websocket.go). */
module WebSocketLink {
  import opened Wrappers

  /** `open` are the dialled connections the transport has not closed. */
  datatype Link = Link(conn: Option<nat>, open: set<nat>, reconnecting: bool, done: bool)

  datatype SendVerdict = Refused | NotConnected | MayWrite(conn: nat)

  function NewLink(): Link {
    Link(None, {}, false, false)
  }

  /** A dialled connection becomes the current one. */
  function Adopt(l: Link, conn: nat): Link {
    l.(conn := Some(conn), open := l.open + {conn})
  }

  /** The guard at the top of reconnect: the first goroutine to pass it owns the loop. */
  function Claim(l: Link): Link {
    l.(reconnecting := true)
  }

  function GiveUp(l: Link): Link {
    l.(reconnecting := false)
  }

  function Install(l: Link, conn: nat): Link {
    GiveUp(Adopt(l, conn))
  }

  function SignalDone(l: Link): Link {
    l.(done := true)
  }

  function CloseConn(l: Link): Link {
    if l.conn.Some? then l.(open := l.open - {l.conn.value}) else l
  }

  /** The current connection can carry traffic. */
  predicate IsOpen(l: Link) {
    l.conn.Some? && l.conn.value in l.open
  }

  function SendGuard(l: Link): SendVerdict {
    if l.reconnecting then Refused else if l.conn.None? then NotConnected else MayWrite(l.conn.value)
  }

  class WebSocket {
    var conn: Option<nat>
    var open: set<nat>
    var reconnecting: bool
    var done: bool

    function View(): Link
      reads this
    {
      Link(conn, open, reconnecting, done)
    }

    constructor ()
      ensures View() == NewLink()
    {
      conn, open, reconnecting, done := None, {}, false, false;
    }

    /** Connect, holding the lock across the dial; `dialled` is what the dial brought. */
    method Connect(dialled: Option<nat>) returns (ok: bool)
      modifies this
      ensures ok <==> dialled.Some?
      ensures View() == if ok then Adopt(old(View()), dialled.value) else old(View())
    {
      if dialled.None? {
        return false;
      }
      conn := dialled;
      open := open + {dialled.value};
      return true;
    }

    /** Send up to its write: what the lock-protected snapshot decides. */
    method BeforeWrite() returns (verdict: SendVerdict)
      ensures verdict == SendGuard(View())
    {
      if reconnecting {
        return Refused;
      }
      if conn.None? {
        return NotConnected;
      }
      return MayWrite(conn.value);
    }

    /** The first section of reconnect. */
    method ClaimReconnect() returns (mine: bool)
      modifies this
      ensures mine <==> !old(reconnecting)
      ensures View() == if mine then Claim(old(View())) else old(View())
    {
      if reconnecting {
        return false;
      }
      reconnecting := true;
      return true;
    }

    /** The section reconnect runs when it finds the transport closed. */
    method AbandonReconnect()
      modifies this
      ensures View() == GiveUp(old(View()))
    {
      reconnecting := false;
    }

    /** The section reconnect runs after a successful dial. */
    method FinishReconnect(dialled: nat)
      modifies this
      ensures View() == Install(old(View()), dialled)
    {
      conn := Some(dialled);
      open := open + {dialled};
      reconnecting := false;
    }

    /** Close signals first, and takes the lock afterwards. */
    method CloseDone()
      modifies this
      ensures View() == SignalDone(old(View()))
    {
      done := true;
    }

    method CloseCurrent()
      modifies this
      ensures View() == CloseConn(old(View()))
    {
      if conn.Some? {
        open := open - {conn.value};
      }
    }
  }
}

/** Any number of goroutines sending, receiving, reconnecting and closing one WebSocket. */
module WebSocketRuns {
  import opened Wrappers
  import opened WebSocketLink
  import opened Callbacks
  import Backoff
  import Runs

  /** Where a goroutine inside reconnect is.  From `Notifying` to `Abandoning` it owns the loop. */
  datatype Pc =
    | Entering
    | Notifying
    | AtTop(delay: nat, slept: seq<nat>)
    | Dialling(delay: nat, slept: seq<nat>)
    | Abandoning
    | Installed
    | Finished

  predicate Owns(pc: Pc) {
    pc.Notifying? || pc.AtTop? || pc.Dialling? || pc.Abandoning?
  }

  /** It has called OnDisconnect, and neither called OnReconnect nor given up. */
  predicate OwesReconnect(pc: Pc) {
    pc.AtTop? || pc.Dialling? || pc.Abandoning? || pc.Installed?
  }

  datatype CloseStage = NotClosed | DoneSignalled | Closed

  datatype State = State(
    link: Link,
    threads: map<nat, Pc>,
    closing: CloseStage,
    dials: nat,
    // history
    trace: seq<Callback>,
    abandoned: nat)

  function Init(): State {
    State(NewLink(), map[], NotClosed, 0, [], 0)
  }

  datatype Event =
    | ReconnectCalled(t: nat)
    | LockTaken(t: nat)
    | DisconnectReported(t: nat)
    | DoneChecked(t: nat)
    | DialFailed(t: nat)
    | DialSucceeded(t: nat)
    | Abandoned(t: nat)
    | ReconnectReported(t: nat)
    | ConnectSucceeded
    | CloseSignals
    | CloseLocks

  function Goto(s: State, t: nat, pc: Pc): State {
    s.(threads := s.threads[t := pc])
  }

  function Step(s: State, e: Event): State {
    if e.ConnectSucceeded? then s.(link := Adopt(s.link, s.dials), dials := s.dials + 1)
    else if e.CloseSignals? then
      if s.closing.NotClosed? then s.(link := SignalDone(s.link), closing := DoneSignalled) else s
    else if e.CloseLocks? then
      if s.closing.DoneSignalled? then s.(link := CloseConn(s.link), closing := Closed) else s
    else if e.ReconnectCalled? then
      if e.t in s.threads then s else Goto(s, e.t, Entering)
    else if e.t !in s.threads then s
    else
      var pc := s.threads[e.t];
      match e
      case LockTaken(t) =>
        if !pc.Entering? then s
        else if s.link.reconnecting then Goto(s, t, Finished)
        else Goto(s.(link := Claim(s.link)), t, Notifying)
      case DisconnectReported(t) =>
        if !pc.Notifying? then s
        else Goto(s.(trace := s.trace + [OnDisconnect]), t, AtTop(Backoff.FIRST_DELAY, []))
      case DoneChecked(t) =>
        if !pc.AtTop? then s
        else Goto(s, t, if s.link.done then Abandoning else Dialling(pc.delay, pc.slept + [pc.delay]))
      case DialFailed(t) =>
        if !pc.Dialling? then s else Goto(s, t, AtTop(Backoff.NextDelay(pc.delay), pc.slept))
      case DialSucceeded(t) =>
        if !pc.Dialling? then s
        else Goto(s.(link := Install(s.link, s.dials), dials := s.dials + 1), t, Installed)
      case Abandoned(t) =>
        if !pc.Abandoning? then s
        else Goto(s.(link := GiveUp(s.link), abandoned := s.abandoned + 1), t, Finished)
      case ReconnectReported(t) =>
        if !pc.Installed? then s else Goto(s.(trace := s.trace + [OnReconnect]), t, Finished)
      case _ => s
  }

  ghost function After(es: seq<Event>): State {
    Runs.After(Step, Init(), es)
  }

  predicate Unrestricted(s: State, e: Event) {
    true
  }

  // ---- one owner ----

  /** `t` owns the reconnect loop. */
  predicate IsOwner(s: State, t: nat) {
    t in s.threads && Owns(s.threads[t])
  }

  ghost predicate OwnerInv(s: State) {
    && (s.link.reconnecting <==> exists t :: IsOwner(s, t))
    && (forall t, u :: IsOwner(s, t) && IsOwner(s, u) ==> t == u)
  }

  /** The loop has slept, and sleeps next, on the capped exponential schedule. */
  ghost predicate OnSchedule(pc: Pc) {
    match pc
    case AtTop(delay, slept) => Backoff.OnSchedule(delay, slept)
    case Dialling(delay, slept) =>
      |slept| > 0 && slept[|slept| - 1] == delay && Backoff.OnSchedule(delay, slept[..|slept| - 1])
    case _ => true
  }

  ghost predicate ScheduleInv(s: State) {
    forall t :: t in s.threads ==> OnSchedule(s.threads[t])
  }

  lemma StepKeepsOwner(s: State, e: Event)
    requires OwnerInv(s)
    ensures OwnerInv(Step(s, e))
  {
    var s' := Step(s, e);
    forall t
      ensures IsOwner(s, t) && !IsOwner(s', t) ==>
                (e.DialSucceeded? || e.Abandoned?) && e.t == t && !s'.link.reconnecting
      ensures !IsOwner(s, t) && IsOwner(s', t) ==> e == LockTaken(t) && !s.link.reconnecting && s'.link.reconnecting
    {
    }
    if s.link.reconnecting && s'.link.reconnecting {
      var t :| IsOwner(s, t);
      assert IsOwner(s', t);
    }
    if !s.link.reconnecting && s'.link.reconnecting {
      assert IsOwner(s', e.t);
    }
    if s.link.reconnecting && !s'.link.reconnecting {
      assert IsOwner(s, e.t) && !IsOwner(s', e.t);
    }
  }

  lemma StepKeepsSchedule(s: State, e: Event)
    requires ScheduleInv(s)
    ensures ScheduleInv(Step(s, e))
  {
    var s' := Step(s, e);
    forall t | t in s'.threads
      ensures OnSchedule(s'.threads[t])
    {
      if t in s.threads && s'.threads[t] != s.threads[t] {
        MoveKeepsSchedule(s, e, t);
      }
    }
  }

  lemma MoveKeepsSchedule(s: State, e: Event, t: nat)
    requires t in s.threads && OnSchedule(s.threads[t]) && Step(s, e).threads[t] != s.threads[t]
    ensures OnSchedule(Step(s, e).threads[t])
  {
    var pc := s.threads[t];
    if e.DialFailed? {
      var n := |pc.slept| - 1;
      assert pc.slept == pc.slept[..n] + [pc.delay];
      Backoff.SleepStaysOnSchedule(pc.delay, pc.slept[..n]);
    } else if e.DoneChecked? {
      assert (pc.slept + [pc.delay])[..|pc.slept|] == pc.slept;
    }
  }

  // ---- reports ----

  function Reports(trace: seq<Callback>, c: Callback): nat {
    if |trace| == 0 then 0
    else Reports(trace[..|trace| - 1], c) + (if trace[|trace| - 1] == c then 1 else 0)
  }

  /** The goroutines that have reported a disconnect they have not yet reported mended. */
  function Owing(s: State): set<nat> {
    set t | t in s.threads && OwesReconnect(s.threads[t])
  }

  ghost predicate ReportInv(s: State) {
    Reports(s.trace, OnDisconnect) == Reports(s.trace, OnReconnect) + |Owing(s)| + s.abandoned
  }

  lemma ReportsGrow(trace: seq<Callback>, c: Callback, d: Callback)
    ensures Reports(trace + [c], d) == Reports(trace, d) + (if c == d then 1 else 0)
  {
    assert (trace + [c])[..|trace + [c]| - 1] == trace;
  }

  lemma DisconnectKeepsReports(s: State, t: nat)
    requires ReportInv(s) && t in s.threads && s.threads[t].Notifying?
    ensures ReportInv(Step(s, DisconnectReported(t)))
  {
    var s' := Step(s, DisconnectReported(t));
    ReportsGrow(s.trace, OnDisconnect, OnDisconnect);
    ReportsGrow(s.trace, OnDisconnect, OnReconnect);
    assert Owing(s') == Owing(s) + {t} && t !in Owing(s);
  }

  lemma ReconnectKeepsReports(s: State, t: nat)
    requires ReportInv(s) && t in s.threads && s.threads[t].Installed?
    ensures ReportInv(Step(s, ReconnectReported(t)))
  {
    var s' := Step(s, ReconnectReported(t));
    ReportsGrow(s.trace, OnReconnect, OnDisconnect);
    ReportsGrow(s.trace, OnReconnect, OnReconnect);
    assert Owing(s') == Owing(s) - {t} && t in Owing(s);
  }

  lemma AbandonKeepsReports(s: State, t: nat)
    requires ReportInv(s) && t in s.threads && s.threads[t].Abandoning?
    ensures ReportInv(Step(s, Abandoned(t)))
  {
    var s' := Step(s, Abandoned(t));
    assert Owing(s') == Owing(s) - {t} && t in Owing(s);
  }

  /** The other events report nothing and change nobody's debt. */
  lemma OtherwiseNothingIsReported(s: State, e: Event)
    requires !e.DisconnectReported? && !e.ReconnectReported? && !e.Abandoned?
    ensures Owing(Step(s, e)) == Owing(s) && Step(s, e).trace == s.trace && Step(s, e).abandoned == s.abandoned
  {
  }

  lemma StepKeepsReports(s: State, e: Event)
    requires ReportInv(s)
    ensures ReportInv(Step(s, e))
  {
    if Step(s, e) == s {
    } else if e.DisconnectReported? {
      DisconnectKeepsReports(s, e.t);
    } else if e.ReconnectReported? {
      ReconnectKeepsReports(s, e.t);
    } else if e.Abandoned? {
      AbandonKeepsReports(s, e.t);
    } else {
      OtherwiseNothingIsReported(s, e);
    }
  }

  ghost predicate Inv(s: State) {
    OwnerInv(s) && ScheduleInv(s) && ReportInv(s)
  }

  lemma InvAlways(es: seq<Event>)
    ensures Inv(After(es))
  {
    assert Owing(Init()) == {};
    forall s, e | Inv(s) && Unrestricted(s, e)
      ensures Inv(Step(s, e))
    {
      StepKeepsOwner(s, e);
      StepKeepsSchedule(s, e);
      StepKeepsReports(s, e);
    }
    Runs.AnyRunAbides(Step, Init(), Unrestricted, es);
    Runs.InvariantHolds(Step, Init(), Unrestricted, Inv, es);
  }

  /**
   With any number of goroutines and a Close at any point: reconnecting is true exactly when a
   goroutine owns the reconnect loop, never two do, and OnReconnect never outnumbers OnDisconnect.
   */
  lemma ReconnectExclusion(es: seq<Event>)
    ensures var s := After(es);
            && (s.link.reconnecting <==> exists t :: IsOwner(s, t))
            && (forall t, u :: IsOwner(s, t) && IsOwner(s, u) ==> t == u)
            && Reports(s.trace, OnReconnect) <= Reports(s.trace, OnDisconnect)
  {
    InvAlways(es);
  }

  // ---- Send ----

  /** The current connection is the one dialled last, open unless Close has run. */
  ghost predicate ConnInv(s: State) {
    && s.link.conn == (if s.dials == 0 then None else Some(s.dials - 1))
    && (s.dials > 0 && !s.closing.Closed? ==> s.dials - 1 in s.link.open)
  }

  lemma StepKeepsConn(s: State, e: Event)
    requires ConnInv(s)
    ensures ConnInv(Step(s, e))
  {
  }

  /** The connections dialled and no longer open. */
  function ShutConns(s: State): set<nat> {
    set c: nat | c < s.dials && c !in s.link.open
  }

  /** The transport closes one connection at most, the one Close finds. */
  ghost predicate OpenInv(s: State) {
    && (forall c :: c in s.link.open ==> c < s.dials)
    && (!s.closing.Closed? ==> ShutConns(s) == {})
    && |ShutConns(s)| <= 1
  }

  lemma StepKeepsOpen(s: State, e: Event)
    requires ConnInv(s) && OpenInv(s)
    ensures OpenInv(Step(s, e))
  {
    var s' := Step(s, e);
    if e.CloseLocks? && s.closing.DoneSignalled? {
      if s.dials > 0 {
        assert ShutConns(s') == {s.dials - 1};
      } else {
        assert ShutConns(s') == {};
      }
    } else {
      assert ShutConns(s') == ShutConns(s);
    }
  }

  /**
   No connection is closed but by Close, and Close closes one: a reconnect or a second Connect leaves
   the connection it replaces as it is.
   */
  lemma OnlyCloseCloses(es: seq<Event>)
    ensures var s := After(es);
            && (!s.closing.Closed? ==> forall c :: c in s.link.open <==> 0 <= c < s.dials)
            && |ShutConns(s)| <= 1
  {
    OpenAlways(es);
    NoneShut(After(es));
  }

  ghost predicate ConnsInv(s: State) {
    ConnInv(s) && OpenInv(s)
  }

  lemma OpenAlways(es: seq<Event>)
    ensures ConnsInv(After(es))
  {
    assert ShutConns(Init()) == {};
    forall s, e | ConnsInv(s) && Unrestricted(s, e)
      ensures ConnsInv(Step(s, e))
    {
      StepKeepsConn(s, e);
      StepKeepsOpen(s, e);
    }
    Runs.AnyRunAbides(Step, Init(), Unrestricted, es);
    Runs.InvariantHolds(Step, Init(), Unrestricted, ConnsInv, es);
  }

  lemma NoneShut(s: State)
    requires OpenInv(s)
    ensures !s.closing.Closed? ==> forall c :: c in s.link.open <==> 0 <= c < s.dials
  {
    if !s.closing.Closed? {
      forall c: nat
        ensures c in s.link.open <==> c < s.dials
      {
        assert c !in ShutConns(s);
      }
    }
  }

  /**
   What Send meets in every run: it is refused exactly while some goroutine owns the reconnect loop,
   it finds no connection exactly if none was ever dialled, and it writes to the one dialled last,
   which is open as long as Close has not run.
   */
  lemma SendGuardExactly(es: seq<Event>)
    ensures var s := After(es);
            && (SendGuard(s.link).Refused? <==> exists t :: IsOwner(s, t))
            && (SendGuard(s.link).NotConnected? <==> s.dials == 0 && forall t :: !IsOwner(s, t))
            && (SendGuard(s.link).MayWrite? ==>
                  && SendGuard(s.link).conn + 1 == s.dials
                  && (IsOpen(s.link) || s.closing.Closed?))
  {
    InvAlways(es);
    forall s, e | ConnInv(s) && Unrestricted(s, e)
      ensures ConnInv(Step(s, e))
    {
      StepKeepsConn(s, e);
    }
    Runs.AnyRunAbides(Step, Init(), Unrestricted, es);
    Runs.InvariantHolds(Step, Init(), Unrestricted, ConnInv, es);
  }

  lemma SleptOnSchedule(pc: Pc)
    requires pc.Dialling? && OnSchedule(pc)
    ensures forall k :: 0 <= k < |pc.slept| ==> pc.slept[k] == Backoff.DelayAt(k)
  {
    var n := |pc.slept| - 1;
    assert pc.slept == pc.slept[..n] + [pc.delay];
  }

  /** The sleeps of a loop are 1, 2, 4, 8, 16, 30, 30, ... seconds, so many in all. */
  lemma LoopBacksOff(es: seq<Event>, t: nat)
    requires t in After(es).threads && After(es).threads[t].Dialling?
    ensures var slept := After(es).threads[t].slept;
            && (forall k :: 0 <= k < |slept| ==> slept[k] == Backoff.DelayAt(k))
            && Backoff.TotalDelay(slept) == if |slept| <= 5 then Backoff.Pow2(|slept|) - 1 else 31 + 30 * (|slept| - 5)
  {
    InvAlways(es);
    var pc := After(es).threads[t];
    SleptOnSchedule(pc);
    Backoff.TotalOnSchedule(pc.slept);
  }

  // ---- alternation ----

  /** `t` holds the loop, or has still to report the reconnect it made. */
  predicate IsBusy(s: State, t: nat) {
    t in s.threads && (Owns(s.threads[t]) || s.threads[t].Installed?)
  }

  predicate Owes(s: State, t: nat) {
    t in s.threads && OwesReconnect(s.threads[t])
  }

  /** Every disconnect that an earlier owner reported has been reported mended. */
  ghost predicate Settled(s: State) {
    s.abandoned == 0 && forall t :: t in s.threads ==> !s.threads[t].Installed?
  }

  /** `t` is about to take ownership: it is at the lock and nobody is reconnecting. */
  predicate TakesOver(s: State, t: nat) {
    t in s.threads && s.threads[t].Entering? && !s.link.reconnecting
  }

  /** Ownership is only taken when the previous owner has finished reporting. */
  ghost predicate Calm(s: State, e: Event) {
    e.LockTaken? && TakesOver(s, e.t) ==> Settled(s)
  }

  ghost predicate CalmInv(s: State) {
    && OwnerInv(s)
    && Alternates(s.trace)
    && (forall t, u :: IsBusy(s, t) && IsBusy(s, u) ==> t == u)
    && (s.abandoned > 0 ==> forall t :: !IsBusy(s, t))
    && (|s.trace| % 2 == 1 <==> s.abandoned > 0 || exists t :: Owes(s, t))
  }

  /** An event changes the standing of the goroutine it names and of no other. */
  lemma StandingStep(s: State, e: Event, t: nat)
    ensures IsBusy(s, t) != IsBusy(Step(s, e), t) || Owes(s, t) != Owes(Step(s, e), t) ==>
              && (e.LockTaken? || e.DisconnectReported? || e.Abandoned? || e.ReconnectReported?)
              && e.t == t && Step(s, e) != s
  {
  }

  lemma StepKeepsCalm(s: State, e: Event)
    requires CalmInv(s) && Calm(s, e)
    ensures CalmInv(Step(s, e))
  {
    var s' := Step(s, e);
    StepKeepsOwner(s, e);
    forall t
      ensures IsBusy(s, t) != IsBusy(s', t) || Owes(s, t) != Owes(s', t) ==>
                && (e.LockTaken? || e.DisconnectReported? || e.Abandoned? || e.ReconnectReported?)
                && e.t == t && s' != s
    {
      StandingStep(s, e, t);
    }
    if s' == s {
    } else if e.DisconnectReported? {
      assert IsBusy(s, e.t) && Owes(s', e.t) && !Owes(s, e.t);
      forall t
        ensures !Owes(s, t)
      {
        assert Owes(s, t) ==> IsBusy(s, t);
      }
    } else if e.ReconnectReported? {
      assert IsBusy(s, e.t) && Owes(s, e.t) && !Owes(s', e.t);
      forall t
        ensures !Owes(s', t)
      {
        assert Owes(s', t) ==> IsBusy(s, t);
      }
    } else if e.Abandoned? {
      assert IsBusy(s, e.t) && Owes(s, e.t);
    } else if e.LockTaken? {
      assert !Owes(s, e.t) && !Owes(s', e.t);
      if TakesOver(s, e.t) {
        assert !IsOwner(s, e.t);
        forall t
          ensures !IsBusy(s, t)
        {
          assert IsBusy(s, t) ==> IsOwner(s, t);
        }
      }
    }
  }

  lemma CalmAlways(es: seq<Event>)
    requires Runs.Abides(Step, Init(), Calm, es)
    ensures CalmInv(After(es))
  {
    forall s, e | CalmInv(s) && Calm(s, e)
      ensures CalmInv(Step(s, e))
    {
      StepKeepsCalm(s, e);
    }
    Runs.InvariantHolds(Step, Init(), Calm, CalmInv, es);
  }

  /**
   The reports of a calm run alternate, starting with OnDisconnect; and the next goroutine to take
   ownership keeps it so exactly when the previous owner has finished reporting.
   */
  lemma AlternationExactlyWhenCalm(es: seq<Event>, t: nat)
    requires Runs.Abides(Step, Init(), Calm, es)
    ensures Alternates(After(es).trace)
    ensures TakesOver(After(es), t) ==>
              (Settled(After(es)) <==> Alternates(After(es + [LockTaken(t)] + [DisconnectReported(t)]).trace))
  {
    CalmAlways(es);
    var s := After(es);
    if TakesOver(s, t) {
      Runs.Extend(Step, Init(), es, LockTaken(t));
      Runs.Extend(Step, Init(), es + [LockTaken(t)], DisconnectReported(t));
      var trace := After(es + [LockTaken(t)] + [DisconnectReported(t)]).trace;
      assert trace == s.trace + [OnDisconnect];
      assert forall i :: 0 <= i < |s.trace| ==> trace[i] == s.trace[i];
      assert forall u :: !IsOwner(s, u);
      if Settled(s) {
        forall u
          ensures !Owes(s, u)
        {
          assert Owes(s, u) ==> IsOwner(s, u);
        }
        assert |s.trace| % 2 == 0;
      } else {
        if s.abandoned == 0 {
          var u :| u in s.threads && s.threads[u].Installed?;
          assert Owes(s, u);
        }
        assert trace[|s.trace|] == OnDisconnect && |s.trace| % 2 == 1;
      }
    }
  }

  /** A goroutine that has reconnected and not yet said so. */
  lemma ReachInstalled() returns (es: seq<Event>, s: State)
    ensures s == After(es) && s.threads == map[1 := Installed] && !s.link.reconnecting && s.trace == [OnDisconnect]
  {
    es := [];
    s := Init();
    es, s := Runs.Play(Step, Init(), es, s, ReconnectCalled(1));
    es, s := Runs.Play(Step, Init(), es, s, LockTaken(1));
    assert s == Init().(link := Claim(NewLink()), threads := map[1 := Notifying]);
    es, s := Runs.Play(Step, Init(), es, s, DisconnectReported(1));
    es, s := Runs.Play(Step, Init(), es, s, DoneChecked(1));
    assert s.threads.Keys == {1} && s.threads[1].Dialling? && s.link == Claim(NewLink()) && s.trace == [OnDisconnect];
    es, s := Runs.Play(Step, Init(), es, s, DialSucceeded(1));
  }

  /** Two goroutines can report two disconnects in a row: a reconnect is reported outside the lock. */
  lemma ReportsNeedNotAlternate() returns (es: seq<Event>)
    ensures After(es).trace == [OnDisconnect, OnDisconnect, OnReconnect]
  {
    var s;
    es, s := ReachInstalled();
    es, s := Runs.Play(Step, Init(), es, s, ReconnectCalled(2));
    es, s := Runs.Play(Step, Init(), es, s, LockTaken(2));
    assert s.threads == map[1 := Installed, 2 := Notifying] && s.trace == [OnDisconnect];
    es, s := Runs.Play(Step, Init(), es, s, DisconnectReported(2));
    assert s.threads[1] == Installed && s.trace == [OnDisconnect, OnDisconnect];
    es, s := Runs.Play(Step, Init(), es, s, ReconnectReported(1));
  }

  // ---- after Close ----

  /** No Connect after this point: the caller is done with the transport. */
  predicate NoConnect(s: State, e: Event) {
    !e.ConnectSucceeded?
  }

  predicate IsDialling(s: State, t: nat) {
    t in s.threads && s.threads[t].Dialling?
  }

  /** Whatever the goroutines still in flight do, the transport has no open current connection. */
  ghost predicate StaysShut(s: State) {
    forall es: seq<Event> :: Runs.Abides(Step, s, NoConnect, es) ==> !IsOpen(Runs.After(Step, s, es).link)
  }

  ghost predicate ShutInv(s: State) {
    s.link.done && s.closing.Closed? && !IsOpen(s.link) && forall t :: !IsDialling(s, t)
  }

  lemma StepKeepsShut(s: State, e: Event)
    requires ShutInv(s) && NoConnect(s, e)
    ensures ShutInv(Step(s, e))
  {
    if e.DialSucceeded? {
      assert !IsDialling(s, e.t);
    }
    forall t
      ensures !IsDialling(Step(s, e), t)
    {
      assert !IsDialling(s, t);
    }
  }

  /** Once Close has run, done is signalled. */
  lemma ClosedIsDone(es: seq<Event>)
    ensures !After(es).closing.NotClosed? ==> After(es).link.done
  {
    var inv := (s: State) => !s.closing.NotClosed? ==> s.link.done;
    Runs.AnyRunAbides(Step, Init(), Unrestricted, es);
    Runs.InvariantHolds(Step, Init(), Unrestricted, inv, es);
  }

  /**
   After Close has run, the transport stays shut exactly when no goroutine was past its check of
   done: a dial in flight is not cancelled, and installs its connection.
   */
  lemma ShutExactlyWhenNoDial(run: seq<Event>)
    requires After(run).closing.DoneSignalled?
    ensures var s := Step(After(run), CloseLocks);
            StaysShut(s) <==> forall t :: !IsDialling(s, t)
  {
    ClosedIsDone(run);
    var s := Step(After(run), CloseLocks);
    if t :| IsDialling(s, t) {
      Runs.One(Step, s, NoConnect, DialSucceeded(t));
      assert IsOpen(Runs.After(Step, s, [DialSucceeded(t)]).link);
    } else {
      forall s, e | ShutInv(s) && NoConnect(s, e)
        ensures ShutInv(Step(s, e))
      {
        StepKeepsShut(s, e);
      }
      forall es: seq<Event> | Runs.Abides(Step, s, NoConnect, es)
        ensures !IsOpen(Runs.After(Step, s, es).link)
      {
        Runs.InvariantHolds(Step, s, NoConnect, ShutInv, es);
      }
    }
  }
}
