/**
 The Milan talker (avdecc/acmp_milan.c): one reconcile function decides, after every event from MAAP, SRP, a
 probe or a timer, what is declared to SRP and whether AVTP streams.

 The messages a talker sends are kept in a log; `WindowElapsed` marks in it that the two LeaveAll periods after
 a withdrawal are over.
 */
module MilanTalker {
  import opened WrapArithmetic

  datatype ListenerStatus = NoListener | FailedListener | ActiveAndFailedListeners | ActiveListener

  datatype Params = Params(streamId: nat, mac: nat, vlan: nat)
  const NoParams := Params(0, 0, 0)

  datatype Msg =
    | Declare(params: Params)
    | Withdraw(streamId: nat)
    | AvtpConnect(params: Params)
    | AvtpDisconnect(streamId: nat)
    | WindowElapsed

  const STAT_SUCCESS: nat := 0
  const STAT_TALKER_DEST_MAC_FAIL: nat := 3
  const STAT_INCOMPATIBLE_REQUEST: nat := 17

  /** A stream output: `params` are current, `saved` are those of the last withdrawal. */
  datatype Talker = Talker(
    params: Params, listener: ListenerStatus, probeValid: bool, probeTimer: bool,
    declared: bool, connected: bool, window: bool, windowTimer: bool, saved: Params,
    starts: nat, stops: nat, log: seq<Msg>)

  datatype Event =
    | MaapValid(mac: nat) | MaapConflict | ListenerStatusChanged(status: ListenerStatus)
    | ProbeReceived | ProbeTimerFired | WindowTimerFired

  // ---------------------------------------------------------------- reconcile

  predicate IsActive(status: ListenerStatus) {
    status == ActiveListener || status == ActiveAndFailedListeners
  }

  /** There is an address, and somebody wants the stream. */
  predicate HasValidParams(t: Talker) {
    t.params.mac != 0 && (t.probeValid || t.listener != NoListener)
  }

  function WithdrawIfUnwanted(t: Talker): Talker {
    if t.declared && !HasValidParams(t)
    then t.(declared := false, saved := t.params, window := true, windowTimer := true,
            log := t.log + [Withdraw(t.params.streamId)])
    else t
  }

  function DisconnectIfIdle(t: Talker): Talker {
    if t.connected && (!t.declared || t.listener == NoListener)
    then t.(connected := false, stops := (t.stops + 1) % U32, log := t.log + [AvtpDisconnect(t.params.streamId)])
    else t
  }

  predicate MayDeclare(t: Talker) {
    !t.window || t.saved == t.params
  }

  function DeclareIfWanted(t: Talker): Talker {
    if HasValidParams(t) && !t.declared && MayDeclare(t)
    then t.(declared := true, saved := NoParams, window := false, windowTimer := t.windowTimer && !t.window,
            log := t.log + [Declare(t.params)])
    else t
  }

  function ConnectIfActive(t: Talker): Talker {
    if HasValidParams(t) && t.declared && !t.connected && IsActive(t.listener)
    then t.(connected := true, starts := (t.starts + 1) % U32, log := t.log + [AvtpConnect(t.params)])
    else t
  }

  function Reconcile(t: Talker): Talker {
    ConnectIfActive(DeclareIfWanted(DisconnectIfIdle(WithdrawIfUnwanted(t))))
  }

  /** Nothing is left to do: what is declared is wanted, what streams is declared and heard, and the reverse. */
  predicate Reconciled(t: Talker) {
    && (t.declared ==> HasValidParams(t))
    && (t.connected ==> t.declared && t.listener != NoListener)
    && (HasValidParams(t) && !t.declared ==> !MayDeclare(t))
    && (t.declared && IsActive(t.listener) ==> t.connected)
  }

  lemma ReconcileSettles(t: Talker)
    ensures Reconciled(Reconcile(t))
  {
  }

  lemma ReconcileFixes(t: Talker)
    ensures Reconcile(t) == t <==> Reconciled(t)
  {
    if !Reconciled(t) {
      assert |Reconcile(t).log| > |t.log|;
    }
  }

  /** A second call changes nothing and sends nothing, from any state whatever. */
  lemma ReconcileIdempotent(t: Talker)
    ensures Reconcile(Reconcile(t)) == Reconcile(t)
    ensures Reconcile(t) == t <==> Reconciled(t)
  {
    ReconcileSettles(t);
    ReconcileFixes(Reconcile(t));
    ReconcileFixes(t);
  }

  function Step(t: Talker, ev: Event): Talker {
    match ev
    case MaapValid(mac) => Reconcile(t.(params := t.params.(mac := mac)))
    case MaapConflict => Reconcile(t.(params := t.params.(mac := 0)))
    case ListenerStatusChanged(status) => Reconcile(t.(listener := status))
    case ProbeReceived =>
      var probed := t.(probeValid := true, probeTimer := true);
      if HasValidParams(probed) then Reconcile(probed) else probed
    case ProbeTimerFired => Reconcile(t.(probeTimer := false, probeValid := false))
    case WindowTimerFired => Reconcile(t.(windowTimer := false, window := false, log := t.log + [WindowElapsed]))
  }

  // ---------------------------------------------------------------- what the log says

  /** A withdrawal is less than two LeaveAll periods ago and nothing was declared since. */
  predicate WindowOpen(log: seq<Msg>) {
    log != [] &&
    match log[|log| - 1]
    case Withdraw(_) => true
    case Declare(_) | WindowElapsed => false
    case AvtpConnect(_) | AvtpDisconnect(_) => WindowOpen(log[..|log| - 1])
  }

  function LastDeclared(log: seq<Msg>): Params {
    if log == [] then NoParams
    else if log[|log| - 1].Declare? then log[|log| - 1].params
    else LastDeclared(log[..|log| - 1])
  }

  predicate DeclaredNow(log: seq<Msg>) {
    log != [] &&
    match log[|log| - 1]
    case Declare(_) => true
    case Withdraw(_) => false
    case _ => DeclaredNow(log[..|log| - 1])
  }

  /** A declaration inside the window repeats the last declared parameters. */
  predicate Guarded(log: seq<Msg>) {
    log != [] ==>
      && Guarded(log[..|log| - 1])
      && (log[|log| - 1].Declare? && WindowOpen(log[..|log| - 1]) ==>
            log[|log| - 1].params == LastDeclared(log[..|log| - 1]))
  }

  lemma LogGrows(log: seq<Msg>, m: Msg)
    ensures WindowOpen(log + [m]) == (m.Withdraw? || (!m.Declare? && !m.WindowElapsed? && WindowOpen(log)))
    ensures LastDeclared(log + [m]) == if m.Declare? then m.params else LastDeclared(log)
    ensures DeclaredNow(log + [m]) == (m.Declare? || (!m.Withdraw? && DeclaredNow(log)))
    ensures Guarded(log + [m]) ==
            (Guarded(log) && (m.Declare? && WindowOpen(log) ==> m.params == LastDeclared(log)))
  {
    assert (log + [m])[..|log|] == log;
  }

  /** The guard, read off any position of the log. */
  lemma {:induction false} GuardedAt(log: seq<Msg>, k: nat)
    requires Guarded(log) && k < |log| && log[k].Declare? && WindowOpen(log[..k])
    ensures log[k].params == LastDeclared(log[..k])
  {
    if k < |log| - 1 {
      assert log[..|log| - 1][..k] == log[..k];
      GuardedAt(log[..|log| - 1], k);
    }
  }

  // ---------------------------------------------------------------- the invariant

  /** The part that reconcile does not have to establish. */
  predicate Tracked(t: Talker) {
    && (t.window ==> !t.declared)
    && t.starts < U32 && t.stops < U32
    && (t.starts - t.stops) % U32 == (if t.connected then 1 else 0)
    && t.declared == DeclaredNow(t.log)
    && t.window == WindowOpen(t.log)
    && Guarded(t.log)
    && (t.window ==> t.saved.mac != 0 ==> t.saved == LastDeclared(t.log))
  }

  predicate Inv(t: Talker) {
    && Tracked(t)
    && t.window == t.windowTimer
    && t.probeValid == t.probeTimer
    && Reconcile(t) == t
    && (t.declared ==> t.params == LastDeclared(t.log))
  }

  /** What an observer relies on: the clauses of the invariant that do not mention the log. A talker is declared only
    with an address and while it is probed or listened to; with both it is declared, or waits for the end of the window
    that a withdrawal with other parameters opened. It streams only while declared and heard by somebody, and does
    while it is heard well by somebody. */
  lemma InvMeans(t: Talker)
    requires Inv(t)
    ensures t.declared ==> t.params.mac != 0 && (t.probeValid || t.listener != NoListener)
    ensures t.params.mac != 0 && (t.probeValid || t.listener != NoListener) ==>
              t.declared || (t.window && t.saved != t.params)
    ensures t.connected ==> t.declared && t.listener != NoListener
    ensures t.declared && t.listener in {ActiveListener, ActiveAndFailedListeners} ==> t.connected
    ensures t.probeValid <==> t.probeTimer
    ensures t.window <==> t.windowTimer
    ensures !(t.window && t.declared)
    ensures (t.starts - t.stops) % U32 == if t.connected then 1 else 0
  {
    ReconcileIdempotent(t);
  }

  // ---------------------------------------------------------------- what an event changes

  /** The messages from one talker to the next: exactly the differences, withdrawals and disconnections first. */
  function Differences(t: Talker, r: Talker): (ms: seq<Msg>) {
    (if t.declared && !r.declared then [Withdraw(r.params.streamId)] else [])
    + (if t.connected && !r.connected then [AvtpDisconnect(r.params.streamId)] else [])
    + (if !t.declared && r.declared then [Declare(r.params)] else [])
    + (if !t.connected && r.connected then [AvtpConnect(r.params)] else [])
  }

  /** What MAAP, SRP, probes and timers tell a talker. */
  predicate Told(t: Talker, ev: Event, r: Talker) {
    && r.params == t.params.(mac := if ev.MaapValid? then ev.mac else if ev.MaapConflict? then 0 else t.params.mac)
    && r.listener == (if ev.ListenerStatusChanged? then ev.status else t.listener)
    && r.probeValid == (ev.ProbeReceived? || (t.probeValid && !ev.ProbeTimerFired?))
  }

  /** Every event tells the talker something; what it does then follows from what it has been told, from whether it was
    declared and streaming, and from the withdrawal in progress. */
  lemma StepOutcome(t: Talker, ev: Event)
    requires Inv(t) && Occurs(t, ev)
    ensures var r := Step(t, ev);
            var wanted := r.params.mac != 0 && (r.probeValid || r.listener != NoListener);
            var waits := t.window && !ev.WindowTimerFired? && t.saved != r.params;
            && Told(t, ev, r)
            && (r.declared <==> wanted && (t.declared || !waits))
            && (r.connected <==> r.declared && (r.listener in {ActiveListener, ActiveAndFailedListeners}
                                                || (t.connected && r.listener != NoListener)))
            && (r.window <==> (t.declared && !r.declared) || (t.window && !ev.WindowTimerFired? && !r.declared))
            && (t.declared && !r.declared ==> r.saved == r.params)
            && (!t.declared && !r.declared ==> r.saved == t.saved)
            && r.log == t.log + (if ev.WindowTimerFired? then [WindowElapsed] else []) + Differences(t, r)
  {
    var told := match ev {
      case MaapValid(mac) => t.(params := t.params.(mac := mac))
      case MaapConflict => t.(params := t.params.(mac := 0))
      case ListenerStatusChanged(status) => t.(listener := status)
      case ProbeReceived => t.(probeValid := true, probeTimer := true)
      case ProbeTimerFired => t.(probeTimer := false, probeValid := false)
      case WindowTimerFired => t.(windowTimer := false, window := false, log := t.log + [WindowElapsed])
    };
    InvMeans(t);
    ReconcileOutcome(told);
    ReconcileSends(told);
    assert t.log + [] == t.log;
    assert t.log + [] + Differences(t, t) == t.log;
  }

  lemma ReconcileOutcome(t: Talker)
    requires (t.connected ==> t.declared) && !(t.window && t.declared)
    ensures var r := Reconcile(t);
            var wanted := t.params.mac != 0 && (t.probeValid || t.listener != NoListener);
            && r == t.(declared := r.declared, connected := r.connected, window := r.window, saved := r.saved,
                       windowTimer := r.windowTimer, starts := r.starts, stops := r.stops, log := r.log)
            && (r.declared <==> wanted && (t.declared || !t.window || t.saved == t.params))
            && (r.connected <==> r.declared && (t.listener in {ActiveListener, ActiveAndFailedListeners}
                                                || (t.connected && t.listener != NoListener)))
            && (r.window <==> (t.declared && !r.declared) || (t.window && !r.declared))
            && (t.declared && !r.declared ==> r.saved == t.params)
            && (!t.declared && !r.declared ==> r.saved == t.saved)
  {
  }

  lemma ReconcileSends(t: Talker)
    requires (t.connected ==> t.declared) && !(t.window && t.declared)
    ensures Reconcile(t).log == t.log + Differences(t, Reconcile(t))
  {
    var id := t.params.streamId;
    assert t.log + ([Withdraw(id)] + [AvtpDisconnect(id)] + [] + []) == t.log + [Withdraw(id)] + [AvtpDisconnect(id)];
    assert t.log + ([Withdraw(id)] + [] + [] + []) == t.log + [Withdraw(id)];
    assert t.log + ([] + [AvtpDisconnect(id)] + [] + []) == t.log + [AvtpDisconnect(id)];
    assert t.log + ([] + [] + [Declare(t.params)] + []) == t.log + [Declare(t.params)];
    assert t.log + ([] + [] + [] + [AvtpConnect(t.params)]) == t.log + [AvtpConnect(t.params)];
    assert t.log + ([] + [] + [Declare(t.params)] + [AvtpConnect(t.params)])
        == t.log + [Declare(t.params)] + [AvtpConnect(t.params)];
    assert t.log + [] == t.log;
  }

  /** While somebody listens, silence of the probers changes nothing that is declared or streams. */
  lemma ListenersOutlastProbes(t: Talker)
    requires Inv(t) && t.probeTimer && t.declared && t.listener != NoListener
    ensures Step(t, ProbeTimerFired) == t.(probeValid := false, probeTimer := false)
  {
    ReconcileIdempotent(t);
  }

  /** A talker that is wanted is declared at the latest when the window closes, and streams if it is heard well. */
  lemma WindowEnds(t: Talker)
    requires Inv(t) && t.windowTimer && t.params.mac != 0 && (t.probeValid || t.listener != NoListener)
    ensures var r := Step(t, WindowTimerFired);
            && r.declared && !r.window && !r.windowTimer
            && (r.connected <==> t.listener in {ActiveListener, ActiveAndFailedListeners})
            && r.log == t.log + [WindowElapsed, Declare(t.params)] + if r.connected then [AvtpConnect(t.params)] else []
  {
    StepOutcome(t, WindowTimerFired);
    InvMeans(t);
  }

  /** Before reconcile runs: the address is the declared one or has been invalidated. */
  predicate Ready(t: Talker) {
    && Tracked(t)
    && t.window == t.windowTimer
    && (t.declared ==> t.params.mac == 0 || t.params == LastDeclared(t.log))
  }

  lemma WithdrawKeepsReady(t: Talker)
    requires Ready(t)
    ensures Ready(WithdrawIfUnwanted(t))
  {
    LogGrows(t.log, Withdraw(t.params.streamId));
  }

  lemma DisconnectKeepsReady(t: Talker)
    requires Ready(t)
    ensures Ready(DisconnectIfIdle(t))
  {
    LogGrows(t.log, AvtpDisconnect(t.params.streamId));
  }

  lemma DeclareKeepsReady(t: Talker)
    requires Ready(t)
    ensures Ready(DeclareIfWanted(t))
  {
    LogGrows(t.log, Declare(t.params));
  }

  lemma ConnectKeepsReady(t: Talker)
    requires Ready(t)
    ensures Ready(ConnectIfActive(t))
  {
    LogGrows(t.log, AvtpConnect(t.params));
  }

  lemma ReconcileReaches(t: Talker)
    requires Ready(t) && t.probeValid == t.probeTimer
    ensures Inv(Reconcile(t))
  {
    ReconcileIdempotent(t);
    ReconcileIdempotent(Reconcile(t));
    WithdrawKeepsReady(t);
    DisconnectKeepsReady(WithdrawIfUnwanted(t));
    DeclareKeepsReady(DisconnectIfIdle(WithdrawIfUnwanted(t)));
    ConnectKeepsReady(DeclareIfWanted(DisconnectIfIdle(WithdrawIfUnwanted(t))));
    assert Ready(Reconcile(t));
    assert Reconcile(t).declared ==> HasValidParams(Reconcile(t));
  }

  /** MAAP announces a conflict before it moves a declared talker to another address. */
  predicate Admissible(t: Talker, ev: Event) {
    ev.MaapValid? ==> !t.declared || ev.mac == t.params.mac || ev.mac == 0
  }

  /** Timers fire only while they run. */
  predicate Occurs(t: Talker, ev: Event) {
    (ev.ProbeTimerFired? ==> t.probeTimer) && (ev.WindowTimerFired? ==> t.windowTimer)
  }

  /** An event keeps the invariant iff it is not an unannounced change of a declared address. */
  lemma StepExact(t: Talker, ev: Event)
    requires Inv(t) && Occurs(t, ev)
    ensures Inv(Step(t, ev)) <==> Admissible(t, ev)
  {
    ReconcileIdempotent(t);
    if !Admissible(t, ev) {
      assert Step(t, ev).declared && LastDeclared(Step(t, ev).log) == LastDeclared(t.log);
    } else {
      match ev
      case MaapValid(mac) => ReconcileReaches(t.(params := t.params.(mac := mac)));
      case MaapConflict => ReconcileReaches(t.(params := t.params.(mac := 0)));
      case ListenerStatusChanged(status) => ReconcileReaches(t.(listener := status));
      case ProbeReceived =>
        var probed := t.(probeValid := true, probeTimer := true);
        if HasValidParams(probed) {
          ReconcileReaches(probed);
        }
      case ProbeTimerFired => ReconcileReaches(t.(probeTimer := false, probeValid := false));
      case WindowTimerFired =>
        LogGrows(t.log, WindowElapsed);
        ReconcileReaches(t.(windowTimer := false, window := false, log := t.log + [WindowElapsed]));
    }
  }

  // ---------------------------------------------------------------- runs

  predicate Legal(t: Talker, evs: seq<Event>)
    decreases |evs|
  {
    evs != [] ==> Occurs(t, evs[0]) && Admissible(t, evs[0]) && Legal(Step(t, evs[0]), evs[1..])
  }

  function Run(t: Talker, evs: seq<Event>): Talker
    decreases |evs|
  {
    if evs == [] then t else Run(Step(t, evs[0]), evs[1..])
  }

  function Initial(streamId: nat, vlan: nat): Talker {
    Talker(Params(streamId, 0, vlan), NoListener, false, false, false, false, false, false, NoParams, 0, 0, [])
  }

  /** Over every run: the talker is reconciled, and every declaration inside a withdraw window repeats the last one. */
  lemma {:induction false} RunKeeps(t: Talker, evs: seq<Event>)
    requires Inv(t) && Legal(t, evs)
    ensures Inv(Run(t, evs))
    decreases |evs|
  {
    if evs != [] {
      StepExact(t, evs[0]);
      RunKeeps(Step(t, evs[0]), evs[1..]);
    }
  }

  /** What can follow an unannounced change: nobody listens any more, the last probe is too old, a new probe comes. */
  function Relapse(t: Talker): (evs: seq<Event>) {
    [ListenerStatusChanged(NoListener)] + (if t.probeTimer then [ProbeTimerFired] else []) + [ProbeReceived]
  }

  /** The address that was never declared is taken for the declared one when the talker is withdrawn, and then
    declared while the window is open. */
  lemma UnannouncedBreaksGuard(t: Talker, mac: nat)
    requires Inv(t) && !Admissible(t, MaapValid(mac))
    ensures var moved := Step(t, MaapValid(mac));
            Legal(moved, Relapse(moved)) && !Guarded(Run(moved, Relapse(moved)).log)
  {
    ReconcileIdempotent(t);
    var moved := Step(t, MaapValid(mac));
    assert moved.declared && moved.params == t.params.(mac := mac) && LastDeclared(moved.log) == t.params by {
      LogGrows(t.log, AvtpConnect(moved.params));
      LogGrows(t.log, AvtpDisconnect(moved.params.streamId));
    }
    var left := Step(moved, ListenerStatusChanged(NoListener));
    Unlistened(moved, left);
    var idle := if moved.probeTimer then Step(left, ProbeTimerFired) else left;
    Redeclared(idle);
    RunOfThree(moved, left, idle);
  }

  /** The relapse before the new probe: the talker ends withdrawn, inside the window. */
  predicate Withdrawn(moved: Talker, idle: Talker) {
    && !idle.declared && idle.window && idle.saved == idle.params == moved.params
    && WindowOpen(idle.log) && LastDeclared(idle.log) == LastDeclared(moved.log)
  }

  lemma Unlistened(moved: Talker, left: Talker)
    requires moved.declared && moved.params.mac != 0 && moved.probeValid == moved.probeTimer && !moved.window
    requires left == Step(moved, ListenerStatusChanged(NoListener))
    ensures left.probeTimer == moved.probeTimer
    ensures Withdrawn(moved, if moved.probeTimer then Step(left, ProbeTimerFired) else left)
  {
    if moved.probeTimer {
      KeepsDeclaring(moved);
      TimesOut(left);
    } else {
      WithdrawsAtOnce(moved);
    }
  }

  lemma KeepsDeclaring(moved: Talker)
    requires moved.declared && moved.params.mac != 0 && moved.probeValid && !moved.window
    ensures var left := Step(moved, ListenerStatusChanged(NoListener));
            && left == moved.(listener := NoListener, connected := false, stops := left.stops, log := left.log)
            && LastDeclared(left.log) == LastDeclared(moved.log)
  {
    LogGrows(moved.log, AvtpDisconnect(moved.params.streamId));
  }

  lemma TimesOut(left: Talker)
    requires left.declared && left.listener == NoListener && !left.connected && !left.window
    ensures Withdrawn(left, Step(left, ProbeTimerFired))
  {
    LogGrows(left.log, Withdraw(left.params.streamId));
  }

  lemma WithdrawsAtOnce(moved: Talker)
    requires moved.declared && !moved.probeValid && !moved.window
    ensures Withdrawn(moved, Step(moved, ListenerStatusChanged(NoListener)))
  {
    var id := moved.params.streamId;
    LogGrows(moved.log, Withdraw(id));
    LogGrows(moved.log + [Withdraw(id)], AvtpDisconnect(id));
  }

  lemma Redeclared(idle: Talker)
    requires !idle.declared && idle.window && idle.saved == idle.params && idle.params.mac != 0
    requires WindowOpen(idle.log) && LastDeclared(idle.log) != idle.params
    ensures !Guarded(Step(idle, ProbeReceived).log)
  {
    var declared := idle.log + [Declare(idle.params)];
    LogGrows(idle.log, Declare(idle.params));
    LogGrows(declared, AvtpConnect(idle.params));
    LogGrows(idle.log, AvtpDisconnect(idle.params.streamId));
    LogGrows(idle.log + [AvtpDisconnect(idle.params.streamId)], Declare(idle.params));
  }

  lemma RunOfThree(moved: Talker, left: Talker, idle: Talker)
    requires left == Step(moved, ListenerStatusChanged(NoListener)) && left.probeTimer == moved.probeTimer
    requires idle == if moved.probeTimer then Step(left, ProbeTimerFired) else left
    ensures Legal(moved, Relapse(moved)) && Run(moved, Relapse(moved)) == Step(idle, ProbeReceived)
  {
    hide Step;
    RunCons(idle, ProbeReceived, []);
    assert [ProbeReceived] + [] == [ProbeReceived];
    if moved.probeTimer { RunCons(left, ProbeTimerFired, [ProbeReceived]); }
    var rest := (if moved.probeTimer then [ProbeTimerFired] else []) + [ProbeReceived];
    assert !moved.probeTimer ==> rest == [ProbeReceived];
    RunCons(moved, ListenerStatusChanged(NoListener), rest);
    assert Relapse(moved) == [ListenerStatusChanged(NoListener)] + rest;
  }

  lemma RunCons(t: Talker, ev: Event, rest: seq<Event>)
    requires Occurs(t, ev) && Admissible(t, ev) && Legal(Step(t, ev), rest)
    ensures Legal(t, [ev] + rest) && Run(t, [ev] + rest) == Run(Step(t, ev), rest)
  {
    assert ([ev] + rest)[1..] == rest;
  }

  /** The redeclare guard holds over everything that can follow an event, exactly when the event is not an unannounced
    change of a declared address. */
  lemma GuardExact(t: Talker, ev: Event)
    requires Inv(t) && Occurs(t, ev)
    ensures (forall evs | Legal(Step(t, ev), evs) :: Guarded(Run(Step(t, ev), evs).log)) <==> Admissible(t, ev)
  {
    if Admissible(t, ev) {
      StepExact(t, ev);
      forall evs | Legal(Step(t, ev), evs) ensures Guarded(Run(Step(t, ev), evs).log) {
        RunKeeps(Step(t, ev), evs);
      }
    } else {
      UnannouncedBreaksGuard(t, ev.mac);
    }
  }

  /** The shortest such run, in full. */
  lemma UnannouncedAddressBreaksGuard()
    ensures
      var moved := Step(Step(Step(Initial(7, 2), MaapValid(1)), ProbeReceived), MaapValid(2));
      var last := Step(Step(moved, ProbeTimerFired), ProbeReceived);
      && last.log == [Declare(Params(7, 1, 2)), Withdraw(7), Declare(Params(7, 2, 2))]
      && !Guarded(last.log)
  {
    var first, second := Declare(Params(7, 1, 2)), Declare(Params(7, 2, 2));
    var t1 := Step(Initial(7, 2), MaapValid(1));
    assert t1 == Initial(7, 2).(params := Params(7, 1, 2));
    var t2 := Step(t1, ProbeReceived);
    assert t2 == t1.(probeValid := true, probeTimer := true, declared := true, log := [first]);
    var t3 := Step(t2, MaapValid(2));
    assert t3 == t2.(params := Params(7, 2, 2));
    var t4 := Step(t3, ProbeTimerFired);
    assert t4 == t3.(probeValid := false, probeTimer := false, declared := false, saved := Params(7, 2, 2),
                     window := true, windowTimer := true, log := [first, Withdraw(7)]);
    var t5 := Step(t4, ProbeReceived);
    assert t5.log == [first, Withdraw(7), second];
    BrokenLog();
  }

  lemma BrokenLog()
    ensures !Guarded([Declare(Params(7, 1, 2)), Withdraw(7), Declare(Params(7, 2, 2))])
  {
    LogGrows([], Declare(Params(7, 1, 2)));
    LogGrows([Declare(Params(7, 1, 2))], Withdraw(7));
    LogGrows([Declare(Params(7, 1, 2)), Withdraw(7)], Declare(Params(7, 2, 2)));
    assert [] + [Declare(Params(7, 1, 2))] == [Declare(Params(7, 1, 2))];
    assert [Declare(Params(7, 1, 2))] + [Withdraw(7)] == [Declare(Params(7, 1, 2)), Withdraw(7)];
    assert [Declare(Params(7, 1, 2)), Withdraw(7)] + [Declare(Params(7, 2, 2))]
        == [Declare(Params(7, 1, 2)), Withdraw(7), Declare(Params(7, 2, 2))];
  }

  // ---------------------------------------------------------------- the descriptor, updated in place

  class StreamOutput {
    const avbInterface: nat
    var params: Params
    var listener: ListenerStatus
    var probeValid: bool
    var probeTimer: bool
    var talkerDeclared: bool
    var avtpConnected: bool
    var withdrawInProgress: bool
    var withdrawTimer: bool
    var withdrawParams: Params
    var streamStart: nat
    var streamStop: nat
    ghost var log: seq<Msg>

    ghost function View(): Talker
      reads this
    {
      Talker(params, listener, probeValid, probeTimer, talkerDeclared, avtpConnected, withdrawInProgress, withdrawTimer,
             withdrawParams, streamStart, streamStop, log)
    }

    constructor (avbInterface: nat, streamId: nat, vlan: nat)
      ensures View() == Initial(streamId, vlan) && Inv(View())
    {
      this.avbInterface := avbInterface;
      params, listener := Params(streamId, 0, vlan), NoListener;
      probeValid, probeTimer, talkerDeclared, avtpConnected := false, false, false, false;
      withdrawInProgress, withdrawTimer, withdrawParams := false, false, NoParams;
      streamStart, streamStop := 0, 0;
      log := [];
    }

    predicate HasValidSrpParams()
      reads this
    {
      params.mac != 0 && (probeValid || listener != NoListener)
    }

    /** acmp_talker_withdraw and the start of the withdraw window. */
    method WithdrawTalker()
      modifies this
      ensures View() == old(View()).(declared := false, saved := old(params), window := true, windowTimer := true,
                                     log := old(log) + [Withdraw(old(params).streamId)])
    {
      log := log + [Withdraw(params.streamId)];
      withdrawParams := params;
      talkerDeclared := false;
      withdrawInProgress, withdrawTimer := true, true;
    }

    /** acmp_talker_avtp_stack_disconnect. */
    method AvtpStackDisconnect()
      modifies this
      ensures View() == old(View()).(connected := false, stops := (old(streamStop) + 1) % U32,
                                     log := old(log) + [AvtpDisconnect(old(params).streamId)])
    {
      log := log + [AvtpDisconnect(params.streamId)];
      streamStop := (streamStop + 1) % U32;
      avtpConnected := false;
    }

    /** acmp_talker_avtp_stack_connect. */
    method AvtpStackConnect()
      modifies this
      ensures View() == old(View()).(connected := true, starts := (old(streamStart) + 1) % U32,
                                     log := old(log) + [AvtpConnect(old(params))])
    {
      log := log + [AvtpConnect(params)];
      streamStart := (streamStart + 1) % U32;
      avtpConnected := true;
    }

    /** The declare branch of the update. It exits early while a withdrawal with other parameters is in progress. */
    method DeclareTalker()
      requires HasValidSrpParams() && !talkerDeclared
      modifies this
      ensures View() == DeclareIfWanted(old(View()))
    {
      if withdrawInProgress {
        if withdrawParams != params {
          return;
        }
        withdrawInProgress, withdrawTimer := false, false;
      }
      log := log + [Declare(params)];
      talkerDeclared := true;
      withdrawParams := NoParams;
    }

    /** acmp_milan_talker_update. */
    method Update()
      modifies this
      ensures View() == Reconcile(old(View()))
    {
      if !HasValidSrpParams() && talkerDeclared {
        WithdrawTalker();
      }
      if (!talkerDeclared || listener == NoListener) && avtpConnected {
        AvtpStackDisconnect();
      }
      if HasValidSrpParams() {
        if !talkerDeclared {
          DeclareTalker();
        }
        if IsActive(listener) && !avtpConnected && talkerDeclared {
          AvtpStackConnect();
        }
      }
    }

    /** acmp_milan_talker_maap_valid: the only caller that can break the invariant, and exactly when. */
    method MaapValidRcv(mac: nat)
      requires Inv(View())
      modifies this
      ensures View() == Step(old(View()), MaapValid(mac))
      ensures Inv(View()) <==> !old(talkerDeclared) || mac == old(params.mac) || mac == 0
    {
      StepExact(View(), MaapValid(mac));
      params := params.(mac := mac);
      Update();
    }

    /** acmp_milan_talker_maap_conflict. */
    method MaapConflictRcv()
      requires Inv(View())
      modifies this
      ensures Inv(View()) && View() == Step(old(View()), MaapConflict) && !talkerDeclared && !avtpConnected
    {
      StepExact(View(), MaapConflict);
      params := params.(mac := 0);
      Update();
      InvMeans(View());
    }

    /** acmp_milan_talker_update_status. */
    method ListenerStatusRcv(status: ListenerStatus)
      requires Inv(View())
      modifies this
      ensures Inv(View()) && View() == Step(old(View()), ListenerStatusChanged(status))
    {
      StepExact(View(), ListenerStatusChanged(status));
      listener := status;
      Update();
    }

    /** The PROBE_TX_COMMAND branch of acmp_milan_talker_rcv. */
    method ProbeTxRcv(port: nat) returns (status: nat)
      requires Inv(View())
      modifies this
      ensures Inv(View())
      ensures View() == if port == avbInterface then Step(old(View()), ProbeReceived) else old(View())
      ensures status == if port != avbInterface then STAT_INCOMPATIBLE_REQUEST
                        else if old(params.mac) == 0 then STAT_TALKER_DEST_MAC_FAIL else STAT_SUCCESS
      ensures status == STAT_SUCCESS ==> talkerDeclared || (withdrawInProgress && withdrawParams != params)
    {
      if port != avbInterface {
        return STAT_INCOMPATIBLE_REQUEST;
      }
      StepExact(View(), ProbeReceived);
      probeTimer := true;
      probeValid := true;
      if !HasValidSrpParams() {
        status := STAT_TALKER_DEST_MAC_FAIL;
      } else {
        Update();
        status := STAT_SUCCESS;
        InvMeans(View());
      }
    }

    /** The 15 seconds after the last probe are over. */
    method ProbeTimerRcv()
      requires Inv(View()) && probeTimer
      modifies this
      ensures Inv(View()) && View() == Step(old(View()), ProbeTimerFired)
    {
      StepExact(View(), ProbeTimerFired);
      probeTimer := false;
      probeValid := false;
      Update();
    }

    /** The two LeaveAll periods are over. */
    method WithdrawTimerRcv()
      requires Inv(View()) && withdrawTimer
      modifies this
      ensures Inv(View()) && View() == Step(old(View()), WindowTimerFired)
    {
      StepExact(View(), WindowTimerFired);
      withdrawTimer := false;
      withdrawInProgress := false;
      log := log + [WindowElapsed];
      Update();
    }

    /** The talker part of acmp_milan_exit: nothing stays declared or connected. */
    method Exit()
      requires Inv(View())
      modifies this
      ensures !talkerDeclared && !avtpConnected && !DeclaredNow(log) && streamStart == streamStop
      ensures log == old(log) + (if old(talkerDeclared) then [Withdraw(params.streamId)] else [])
                              + (if old(avtpConnected) then [AvtpDisconnect(params.streamId)] else [])
    {
      if talkerDeclared {
        LogGrows(log, Withdraw(params.streamId));
        log := log + [Withdraw(params.streamId)];
        talkerDeclared := false;
      }
      if avtpConnected {
        LogGrows(log, AvtpDisconnect(params.streamId));
        AvtpStackDisconnect();
      }
    }
  }
}
