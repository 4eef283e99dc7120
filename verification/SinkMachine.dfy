/**
 The Milan listener sink as an abstract machine (AVnu Milan v1.2, section 5.5.3).

 This is the reference that MilanListener refines.  A sink remembers its state, its binding, the stream it is
 settled on and what ADP and SRP last said; the timers it runs and its probing status are not remembered but
 derived from the state (`ResourcesOf`).  The commands in flight are one list shared by all sinks.
 */
module SinkMachine {
  import opened InflightPool
  import opened AcmpCommands

  datatype SinkState =
    | Unbound | PrbWAvail | PrbWDelay | PrbWResp | PrbWResp2 | PrbWRetry | SettledNoRsv | SettledRsvOk

  datatype ProbingStatus = Disabled | Passive | Active | Completed

  /** What BIND_RX_COMMAND carries; all zero when unbound. */
  datatype Binding = Binding(controller: nat, talker: nat, talkerUid: nat, streamingWait: bool)
  const NoBinding := Binding(0, 0, 0, false)

  /** SRP parameters of a stream; all zero outside the settled states. */
  datatype Stream = Stream(id: nat, mac: nat, vlan: nat)
  const NoStream := Stream(0, 0, 0)

  datatype SrpStatus = NoTalker | TalkerActive | TalkerFailed

  /** Messages to the media stack and to SRP, which are always sent as a pair. */
  datatype StackMsg = Connect(streamId: nat) | Disconnect(streamId: nat)

  const STAT_SUCCESS: nat := 0
  const STAT_LISTENER_UNKNOWN_ID: nat := 1
  const STAT_TALKER_EXCLUSIVE: nat := 6
  const STAT_LISTENER_TALKER_TIMEOUT: nat := 7
  const STAT_CONTROLLER_NOT_AUTHORIZED: nat := 16

  datatype Sink = Sink(
    state: SinkState, binding: Binding, stream: Stream, srp: SrpStatus, acmpStatus: nat, probeSeq: nat,
    discovered: bool, discoveryTimer: bool, available: nat, interface: nat, log: seq<StackMsg>)

  datatype Resources = Resources(
    probing: ProbingStatus, delayTimer: bool, retryTimer: bool, noTalkerTimer: bool, registering: bool)

  /** Who holds the entity lock, and the gPTP identity of the interface of each sink: set by other components. */
  datatype Lock = Unlocked | LockedBy(controller: nat)
  datatype Gptp = Gptp(grandmaster: nat, domain: nat)

  datatype State = State(sinks: seq<Sink>, flight: seq<Command>, nextSeq: nat, lock: Lock, gptp: seq<Gptp>)

  datatype Event =
    | TmrNoResp | TmrRetry | TmrDelay | TmrNoTk
    | BindRx(binding: Binding) | UnbindRx(controller: nat) | GetRxState
    | ProbeTxResp(sequenceId: nat, status: nat, stream: Stream)
    | TkDiscovered | TkDeparted | TkRegistered | TkUnregistered
    | SavedBindingParams | UnknownEvent

  datatype AdpEvent = Available(available: nat, interface: nat, gptp: Gptp) | Departing(interface: nat) | NoAdp

  /** The facts outside the sink that a transition depends on. */
  datatype Env = Env(locked: bool, taken: bool, inFlight: bool, nextSeq: nat)

  // ---------------------------------------------------------------- one sink

  predicate Probing(state: SinkState) {
    state == PrbWResp || state == PrbWResp2
  }

  predicate Settled(state: SinkState) {
    state == SettledNoRsv || state == SettledRsvOk
  }

  predicate SameTalker(a: Binding, b: Binding) {
    a.talker == b.talker && a.talkerUid == b.talkerUid
  }

  function ProbingOf(state: SinkState): ProbingStatus {
    match state
    case Unbound => Disabled
    case PrbWAvail => Passive
    case PrbWDelay | PrbWResp | PrbWResp2 | PrbWRetry => Active
    case SettledNoRsv | SettledRsvOk => Completed
  }

  /** The resources of a sink at rest: each timer runs in exactly one state. */
  function ResourcesOf(state: SinkState): Resources {
    Resources(ProbingOf(state), state == PrbWDelay, state == PrbWRetry, state == SettledNoRsv, state == SettledRsvOk)
  }

  /** The same at the moment an event is delivered: a fired timer has stopped, SRP has already moved. */
  function ResourcesAt(state: SinkState, ev: Event): Resources {
    var r := ResourcesOf(state);
    match ev
    case TmrDelay => r.(delayTimer := false)
    case TmrRetry => r.(retryTimer := false)
    case TmrNoTk => r.(noTalkerTimer := false)
    case TkRegistered => r.(registering := true)
    case TkUnregistered => r.(registering := false)
    case _ => r
  }

  /** The messages of a sink once it has left a settled state. */
  function Released(s: Sink): seq<StackMsg> {
    if Settled(s.state) then s.log + [Disconnect(s.stream.id)] else s.log
  }

  /** Leaving a settled state also forgets the stream and what SRP said about it. */
  function Left(s: Sink): Sink {
    s.(stream := NoStream, srp := NoTalker, log := Released(s))
  }

  /** Discovery starts over. */
  function Forgot(s: Sink): Sink {
    s.(discovered := false, discoveryTimer := false)
  }

  /** A new binding; when it names another talker a probe carries the next sequence id. */
  function Rebound(s: Sink, b: Binding, restart: bool, nextSeq: nat): Sink {
    if restart then s.(binding := b, acmpStatus := 0, probeSeq := nextSeq) else s.(binding := b)
  }

  /** Back to probing after the reservation or the talker was lost. */
  function Lost(s: Sink): Sink {
    Left(s).(acmpStatus := 0, state := if s.discovered then PrbWDelay else PrbWAvail)
  }

  predicate Accepted(env: Env) {
    !env.locked && !env.taken
  }

  /** A BIND starts probing unless it names the talker the sink is bound to already. */
  predicate Restarts(s: Sink, ev: Event, env: Env) {
    ev.BindRx? && Accepted(env) && (s.state == Unbound || !SameTalker(s.binding, ev.binding))
  }

  function Step(s: Sink, ev: Event, env: Env): Sink {
    match ev
    case BindRx(b) =>
      if !Accepted(env) then s
      else
        var bound := Rebound(s, b, Sends(s, ev, env), env.nextSeq);
        if Restarts(s, ev, env) then Forgot(Left(bound)).(state := PrbWResp) else bound
    case UnbindRx(_) =>
      if env.locked then s
      else Forgot(Left(s)).(binding := NoBinding, acmpStatus := 0).(state := Unbound)
    case ProbeTxResp(_, status, stream) =>
      if !Probing(s.state) || !env.inFlight then s
      else if status != STAT_SUCCESS then s.(state := PrbWRetry, acmpStatus := status)
      else s.(state := SettledNoRsv, stream := stream, acmpStatus := 0, log := s.log + [Connect(stream.id)])
    case TmrNoResp =>
      if s.state == PrbWResp then s.(state := PrbWResp2)
      else if s.state == PrbWResp2 then s.(state := PrbWRetry, acmpStatus := STAT_LISTENER_TALKER_TIMEOUT)
      else s
    case TmrDelay => if s.state == PrbWDelay then s.(state := PrbWResp, probeSeq := env.nextSeq) else s
    case TmrRetry =>
      if s.state != PrbWRetry then s
      else if s.discovered then s.(state := PrbWDelay) else s.(state := PrbWAvail, acmpStatus := 0)
    case TmrNoTk => if s.state == SettledNoRsv then Lost(s) else s
    case TkUnregistered => if s.state == SettledRsvOk then Lost(s) else s
    case TkRegistered => if s.state == SettledNoRsv then s.(state := SettledRsvOk) else s
    case TkDiscovered => if s.state == PrbWAvail then s.(state := PrbWDelay, acmpStatus := 0) else s
    case TkDeparted => if ProbingOf(s.state) == Active then s.(state := PrbWAvail, acmpStatus := 0) else s
    case SavedBindingParams =>
      if s.state == Unbound then Forgot(s).(acmpStatus := 0).(state := PrbWAvail) else s
    case GetRxState | UnknownEvent => s
  }

  // ---------------------------------------------------------------- the commands in flight

  function ProbeOf(s: Sink, i: nat): Command {
    Command(PROBE_TX_COMMAND, s.probeSeq, i, s.binding.talker, s.binding.talkerUid, s.state == PrbWResp2)
  }

  predicate Sends(s: Sink, ev: Event, env: Env) {
    || (ev.TmrDelay? && s.state == PrbWDelay)
    || (ev.BindRx? && Accepted(env) && !SameTalker(s.binding, ev.binding))
  }

  predicate Cancels(s: Sink, ev: Event, env: Env) {
    Probing(s.state) && (Restarts(s, ev, env) || (ev.UnbindRx? && !env.locked) || ev.TkDeparted? || ev.ProbeTxResp?)
  }

  /** A re-BIND queues the new probe before it cancels the old one. */
  ghost function FlightStep(flight: seq<Command>, i: nat, s: Sink, ev: Event, env: Env): seq<Command> {
    var queued := if Sends(s, ev, env) then [ProbeOf(Step(s, ev, env), i)] + flight else flight;
    if Cancels(s, ev, env) then RemoveFirst(queued, if ev.ProbeTxResp? then ev.sequenceId else s.probeSeq) else queued
  }

  // ---------------------------------------------------------------- all sinks

  predicate Locked(lock: Lock, controller: nat) {
    lock.LockedBy? && lock.controller != controller
  }

  ghost function EnvOf(e: State, i: nat, ev: Event): Env {
    Env(
      locked := (ev.BindRx? && Locked(e.lock, ev.binding.controller))
                || (ev.UnbindRx? && Locked(e.lock, ev.controller)),
      taken := ev.BindRx? && Taken(e.sinks, i, ev.binding),
      inFlight := ev.ProbeTxResp? && InFlight(e.flight, ev.sequenceId),
      nextSeq := e.nextSeq)
  }

  /** Some other sink holds this talker stream, bound or not (an unbound sink holds the null talker). */
  ghost predicate Taken(sinks: seq<Sink>, i: nat, b: Binding) {
    exists j :: 0 <= j < |sinks| && j != i && SameTalker(sinks[j].binding, b)
  }

  ghost predicate InFlight(flight: seq<Command>, sequenceId: nat) {
    exists c :: c in flight && c.sequenceId == sequenceId
  }

  function Put(e: State, i: nat, s: Sink): State
    requires i < |e.sinks|
  {
    e.(sinks := e.sinks[i := s])
  }

  /** One event for sink `i`. */
  ghost function SinkAt(e: State, i: nat, ev: Event): (r: State)
    requires i < |e.sinks|
    ensures |r.sinks| == |e.sinks|
  {
    var s, env := e.sinks[i], EnvOf(e, i, ev);
    e.(sinks := e.sinks[i := Step(s, ev, env)],
       flight := FlightStep(e.flight, i, s, ev, env),
       nextSeq := if Sends(s, ev, env) then (e.nextSeq + 1) % SEQUENCE_IDS else e.nextSeq)
  }

  /** available_index went backwards or stood still: the signed 32-bit difference is not positive. */
  predicate Regressed(now: nat, before: nat) {
    var d := (now as int - before) % 0x1_0000_0000;
    d == 0 || d >= 0x8000_0000
  }

  function Undiscovered(e: State, i: nat): State
    requires i < |e.sinks|
  {
    Put(e, i, e.sinks[i].(discovered := false))
  }

  function Discovered(e: State, i: nat, available: nat): State
    requires i < |e.sinks|
  {
    Put(e, i, e.sinks[i].(available := available, discoveryTimer := true, discovered := true))
  }

  /** The discovery machine fires the sink event before it records its own state. */
  ghost function DiscoveryAt(e: State, i: nat, adp: AdpEvent): (r: State)
    requires i < |e.sinks| == |e.gptp|
    ensures |r.sinks| == |e.sinks| && r.gptp == e.gptp
  {
    var s := e.sinks[i];
    var silent := Put(e, i, s.(discoveryTimer := false));
    match adp
    case Available(available, interface, gptp) =>
      if !s.discovered then
        if gptp != e.gptp[i] then e
        else
          var heard := Put(e, i, s.(available := available, interface := interface, discoveryTimer := true));
          Discovered(SinkAt(heard, i, TkDiscovered), i, available)
      else if interface != s.interface then e
      else if !Regressed(available, s.available) then Put(e, i, s.(available := available, discoveryTimer := true))
      else
        var departed := SinkAt(e, i, TkDeparted);
        if gptp != e.gptp[i] then Put(departed, i, departed.sinks[i].(discovered := false, discoveryTimer := false))
        else Discovered(SinkAt(departed, i, TkDiscovered), i, available)
    case Departing(interface) =>
      if !s.discovered || interface != s.interface then e else Undiscovered(SinkAt(silent, i, TkDeparted), i)
    case NoAdp => if s.discovered then Undiscovered(SinkAt(e, i, TkDeparted), i) else e
  }

  /** An SRP listener status that concerns sink `i`. */
  ghost function SrpAt(e: State, i: nat, status: SrpStatus, stream: Stream): (r: State)
    requires i < |e.sinks|
    ensures |r.sinks| == |e.sinks|
  {
    var s := e.sinks[i];
    if !Settled(s.state) || (status != NoTalker && stream != s.stream) then e
    else
      var e1 := Put(e, i, s.(srp := status));
      if s.state == SettledNoRsv && status != NoTalker then SinkAt(e1, i, TkRegistered)
      else if s.state == SettledRsvOk && status == NoTalker then SinkAt(e1, i, TkUnregistered)
      else e1
  }

  /** The ADP message of a talker entity concerns a sink that is bound to the entity. */
  ghost function AdpAt(e: State, i: nat, entityId: nat, adp: AdpEvent): (r: State)
    requires i < |e.sinks| == |e.gptp|
    ensures |r.sinks| == |e.sinks| && r.gptp == e.gptp
  {
    if e.sinks[i].state != Unbound && e.sinks[i].binding.talker == entityId then DiscoveryAt(e, i, adp) else e
  }

  /** It reaches the first `n` sinks. */
  ghost function AdpUpTo(e: State, entityId: nat, adp: AdpEvent, n: nat): (r: State)
    requires n <= |e.sinks| == |e.gptp|
    ensures |r.sinks| == |e.sinks| && r.gptp == e.gptp
  {
    if n == 0 then e else AdpAt(AdpUpTo(e, entityId, adp, n - 1), n - 1, entityId, adp)
  }

  /** The first sink whose stream has this id, or the number of sinks. */
  function FindStream(sinks: seq<Sink>, id: nat, from: nat): (i: nat)
    requires from <= |sinks|
    ensures from <= i <= |sinks|
    ensures i < |sinks| ==> sinks[i].stream.id == id
    ensures forall j :: from <= j < i ==> sinks[j].stream.id != id
    decreases |sinks| - from
  {
    if from == |sinks| || sinks[from].stream.id == id then from else FindStream(sinks, id, from + 1)
  }

  // ---------------------------------------------------------------- the entity

  datatype EntityEvent =
    | TimerFires(i: nat, timer: Event)
    | DiscoveryTimerFires(i: nat)
    | NoResponse(p: nat)
    | AcmpReceived(i: nat, ev: Event)
    | AdpReceived(entityId: nat, adp: AdpEvent)
    | SrpReceived(status: SrpStatus, stream: Stream)
    | SavedBinding(i: nat, binding: Binding)
    | Elsewhere(lock: Lock, gptp: seq<Gptp>)

  /** Which events can happen: timers fire only while they run, messages are messages. */
  ghost predicate Occurs(e: State, ev: EntityEvent) {
    match ev
    case TimerFires(i, timer) =>
      && i < |e.sinks|
      && match timer {
           case TmrDelay => e.sinks[i].state == PrbWDelay
           case TmrRetry => e.sinks[i].state == PrbWRetry
           case TmrNoTk => e.sinks[i].state == SettledNoRsv
           case _ => false
         }
    case DiscoveryTimerFires(i) => i < |e.sinks| && e.sinks[i].discoveryTimer
    case NoResponse(p) => p < |e.flight|
    case AcmpReceived(_, ev) => Received(ev)
    case AdpReceived(_, adp) => adp.Available? || adp.Departing?
    case SrpReceived(_, _) => true
    case SavedBinding(i, b) => true
    case Elsewhere(_, gptp) => |gptp| == |e.sinks|
  }

  /** The events that a received ACMP message can stand for. */
  predicate Received(ev: Event) {
    ev.BindRx? || ev.UnbindRx? || ev.GetRxState? || ev.ProbeTxResp? || ev.UnknownEvent?
  }

  /** A command timed out: once, it is sent again; twice, it is dropped. */
  ghost function NoResponseAt(e: State, p: nat): (r: State)
    requires p < |e.flight|
    ensures |r.sinks| == |e.sinks| && r.gptp == e.gptp
  {
    var c := e.flight[p];
    var e1 := if c.listenerUid < |e.sinks| then SinkAt(e, c.listenerUid, TmrNoResp) else e;
    e1.(flight := if c.retried then e.flight[..p] + e.flight[p + 1..] else e.flight[p := c.(retried := true)])
  }

  /** Saved parameters are written whatever the state of the sink; only an unbound sink then starts. */
  predicate SavedUsable(e: State, i: nat, b: Binding) {
    i < |e.sinks| && b.talker != 0 && b.controller != 0
  }

  ghost function Next(e: State, ev: EntityEvent): (r: State)
    requires |e.sinks| == |e.gptp| && Occurs(e, ev)
    ensures |r.sinks| == |r.gptp| == |e.sinks|
  {
    match ev
    case TimerFires(i, timer) => SinkAt(e, i, timer)
    case DiscoveryTimerFires(i) => DiscoveryAt(Put(e, i, e.sinks[i].(discoveryTimer := false)), i, NoAdp)
    case NoResponse(p) => NoResponseAt(e, p)
    case AcmpReceived(i, ev) => if i < |e.sinks| then SinkAt(e, i, ev) else e
    case AdpReceived(entityId, adp) => AdpUpTo(e, entityId, adp, |e.sinks|)
    case SrpReceived(status, stream) =>
      var i := FindStream(e.sinks, stream.id, 0);
      if i < |e.sinks| then SrpAt(e, i, status, stream) else e
    case SavedBinding(i, b) =>
      if SavedUsable(e, i, b) then SinkAt(Put(e, i, e.sinks[i].(binding := b)), i, SavedBindingParams) else e
    case Elsewhere(lock, gptp) => e.(lock := lock, gptp := gptp)
  }

  // ---------------------------------------------------------------- responses

  datatype Response = Response(msgType: nat, status: nat, connectionCount: nat,
                               fastConnect: bool, registeringFailed: bool)

  /** The response of a sink to a listener command, if the message is one. */
  function ReplyOf(s: Sink, ev: Event, env: Env): seq<Response> {
    if ev.BindRx? then
      [if env.locked then Response(BIND_RX_COMMAND + 1, STAT_CONTROLLER_NOT_AUTHORIZED, 0, false, false)
       else if env.taken then Response(BIND_RX_COMMAND + 1, STAT_TALKER_EXCLUSIVE, 0, false, false)
       else Response(BIND_RX_COMMAND + 1, STAT_SUCCESS, 1, false, false)]
    else if ev.UnbindRx? then
      [if env.locked then Response(UNBIND_RX_COMMAND + 1, STAT_CONTROLLER_NOT_AUTHORIZED, 0, false, false)
       else Response(UNBIND_RX_COMMAND + 1, STAT_SUCCESS, 0, false, false)]
    else if ev.GetRxState? then
      [Response(GET_RX_STATE_COMMAND + 1, STAT_SUCCESS, if s.state != Unbound then 1 else 0, s.state != Unbound,
                s.state == SettledRsvOk && s.srp == TalkerFailed)]
    else []
  }

  /** The same for any listener index; an unknown one is refused. */
  ghost function Reply(e: State, i: nat, ev: Event): seq<Response> {
    if i < |e.sinks| then ReplyOf(e.sinks[i], ev, EnvOf(e, i, ev))
    else if ev.BindRx? then [Response(BIND_RX_COMMAND + 1, STAT_LISTENER_UNKNOWN_ID, 0, false, false)]
    else if ev.UnbindRx? then [Response(UNBIND_RX_COMMAND + 1, STAT_LISTENER_UNKNOWN_ID, 0, false, false)]
    else if ev.GetRxState? then [Response(GET_RX_STATE_COMMAND + 1, STAT_LISTENER_UNKNOWN_ID, 0, false, false)]
    else []
  }
}
