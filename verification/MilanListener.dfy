/**
 The Milan listener as it is written: stream input descriptors updated in place by the sink machine
 (avdecc/acmp_milan.c), the discovery machine (avdecc/adp_milan.c) and the in-flight timeouts (avdecc/acmp.c).

 Every method is proved to do what SinkMachine says, and to leave each sink with exactly the timers, probing
 status and SRP registration state of the state it is in.
 */
module MilanListener {
  import opened InflightPool
  import opened AcmpCommands
  import opened SinkMachine
  import opened SinkInvariants
  import opened SinkRuns

  /** The dynamic descriptor of a stream input. */
  class StreamInput {
    var state: SinkState
    var probingStatus: ProbingStatus
    var acmpStatus: nat
    var binding: Binding
    var stream: Stream
    var srpRegistering: bool
    var srpStatus: SrpStatus
    var probeSeq: nat
    var discovered: bool
    var availableIndex: nat
    var interfaceIndex: nat
    var delayTimer: bool
    var retryTimer: bool
    var noTalkerTimer: bool
    var discoveryTimer: bool
    /** The messages this sink has sent to the media stack and SRP. */
    ghost var log: seq<StackMsg>

    ghost function View(): Sink
      reads this
    {
      Sink(state, binding, stream, srpStatus, acmpStatus, probeSeq, discovered, discoveryTimer,
           availableIndex, interfaceIndex, log)
    }

    ghost function Holds(): Resources
      reads this
    {
      Resources(probingStatus, delayTimer, retryTimer, noTalkerTimer, srpRegistering)
    }

    constructor ()
      ensures Quiet(View()) && Holds() == ResourcesOf(state) && state == Unbound && log == []
    {
      state, probingStatus, acmpStatus := Unbound, Disabled, 0;
      binding, stream := NoBinding, NoStream;
      srpRegistering, srpStatus := false, NoTalker;
      probeSeq, discovered, availableIndex, interfaceIndex := 0, false, 0, 0;
      delayTimer, retryTimer, noTalkerTimer, discoveryTimer := false, false, false, false;
      log := [];
    }

    /** The running timers, with the probing status and SRP registration left out of account. */
    predicate TimersAre(delay: bool, retry: bool, noTalker: bool)
      reads this
    {
      delayTimer == delay && retryTimer == retry && noTalkerTimer == noTalker
    }

    /** Save the SRP parameters of the answer, connect the stack, and stop probing. */
    method Settle(answer: Stream)
      modifies this
      ensures View() == old(View()).(stream := answer, acmpStatus := 0, log := old(log) + [Connect(answer.id)])
      ensures Holds() == old(Holds()).(probing := Completed)
    {
      stream := answer;
      log := log + [Connect(stream.id)];
      probingStatus, acmpStatus := Completed, 0;
    }

    // One `timer_start` or `timer_stop` of the source each.

    method StartDelay()
      modifies this
      ensures View() == old(View()) && Holds() == old(Holds()).(delayTimer := true)
    {
      delayTimer := true;
    }

    method StopDelay()
      modifies this
      ensures View() == old(View()) && Holds() == old(Holds()).(delayTimer := false)
    {
      delayTimer := false;
    }

    method StartRetry()
      modifies this
      ensures View() == old(View()) && Holds() == old(Holds()).(retryTimer := true)
    {
      retryTimer := true;
    }

    method StopRetry()
      modifies this
      ensures View() == old(View()) && Holds() == old(Holds()).(retryTimer := false)
    {
      retryTimer := false;
    }

    method StartNoTalker()
      modifies this
      ensures View() == old(View()) && Holds() == old(Holds()).(noTalkerTimer := true)
    {
      noTalkerTimer := true;
    }

    method StopNoTalker()
      modifies this
      ensures View() == old(View()) && Holds() == old(Holds()).(noTalkerTimer := false)
    {
      noTalkerTimer := false;
    }

    method Become(next: SinkState)
      modifies this
      ensures View() == old(View()).(state := next) && Holds() == old(Holds())
    {
      state := next;
    }

    /** Disconnect the stack, clear the SRP parameters and state. */
    method Disconnect()
      modifies this
      ensures View() == old(View()).(stream := NoStream, srp := NoTalker,
                                     log := old(log) + [StackMsg.Disconnect(old(stream).id)])
      ensures Holds() == old(Holds()).(registering := false)
    {
      log := log + [StackMsg.Disconnect(stream.id)];
      stream := NoStream;
      srpRegistering, srpStatus := false, NoTalker;
    }

    /** The RESET event of the discovery machine; a talker that is not discovered has no timer to stop. */
    method ResetDiscovery()
      requires discoveryTimer ==> discovered
      modifies this
      ensures View() == Forgot(old(View())) && Holds() == old(Holds())
    {
      if discovered {
        discoveryTimer := false;
        discovered := false;
      }
    }

    method SetBinding(b: Binding)
      modifies this
      ensures View() == old(View()).(binding := b) && Holds() == old(Holds())
    {
      binding := b;
    }

    method SetProbing(status: ProbingStatus)
      modifies this
      ensures View() == old(View()).(acmpStatus := 0) && Holds() == old(Holds()).(probing := status)
    {
      probingStatus, acmpStatus := status, 0;
    }

    method SetAcmpStatus(status: nat)
      modifies this
      ensures View() == old(View()).(acmpStatus := status) && Holds() == old(Holds())
    {
      acmpStatus := status;
    }

    /** Without the talker the sink waits for it to be discovered; with it, it probes again after a delay. */
    method ProbeAgain()
      modifies this
      ensures View() == old(View()).(acmpStatus := 0, state := if old(discovered) then PrbWDelay else PrbWAvail)
      ensures Holds() == if old(discovered) then old(Holds()).(probing := Active, delayTimer := true)
                         else old(Holds()).(probing := Passive)
    {
      if !discovered {
        SetProbing(Passive);
        Become(PrbWAvail);
      } else {
        SetProbing(Active);
        StartDelay();
        Become(PrbWDelay);
      }
    }

    /** The end of the entity: disconnect a settled stream, destroy the timers. */
    method Shutdown()
      modifies this
      ensures log == Released(old(View())) && TimersAre(false, false, false)
    {
      if Settled(state) {
        Disconnect();
      }
      delayTimer, retryTimer, noTalkerTimer := false, false, false;
    }

    /** What SRP reports, and whether that is a registration. */
    method HearSrp(status: SrpStatus, registering: bool)
      modifies this
      ensures View() == old(View()).(srp := status) && Holds() == old(Holds()).(registering := registering)
    {
      srpStatus := status;
      srpRegistering := registering;
    }

    method ExpireTimer(timer: Event)
      requires Plain(View()) && Holds() == ResourcesOf(state)
      requires (timer.TmrDelay? && delayTimer) || (timer.TmrRetry? && retryTimer) || (timer.TmrNoTk? && noTalkerTimer)
      modifies this
      ensures View() == old(View()) && Receives(timer)
    {
      if timer.TmrDelay? {
        delayTimer := false;
      } else if timer.TmrRetry? {
        retryTimer := false;
      } else {
        noTalkerTimer := false;
      }
    }

    /** The talker has just been heard: remember where, and start the discovery timer. */
    method Hear(available: nat, interface: nat)
      modifies this
      ensures View() == old(View()).(available := available, interface := interface, discoveryTimer := true)
      ensures Holds() == old(Holds())
    {
      availableIndex, interfaceIndex := available, interface;
      discoveryTimer := true;
    }

    /** Still there: note the new available_index and restart the discovery timer. */
    method HearAgain(available: nat)
      modifies this
      ensures View() == old(View()).(available := available, discoveryTimer := true) && Holds() == old(Holds())
    {
      availableIndex := available;
      discoveryTimer := true;
    }

    method StopDiscoveryTimer()
      modifies this
      ensures View() == old(View()).(discoveryTimer := false) && Holds() == old(Holds())
    {
      discoveryTimer := false;
    }

    method SetDiscovered(yes: bool)
      modifies this
      ensures View() == old(View()).(discovered := yes) && Holds() == old(Holds())
    {
      discovered := yes;
    }

    // -------------------------------------------------------------- events that concern this sink alone

    /** What the sink machine may rely on about the sink when `ev` is delivered. */
    ghost predicate Receives(ev: Event)
      reads this
    {
      && (ev.SavedBindingParams? || Plain(View()))
      && Holds() == ResourcesAt(state, ev)
      && (ev.TmrDelay? ==> state == PrbWDelay)
      && (ev.TmrRetry? ==> state == PrbWRetry)
      && (ev.TmrNoTk? || ev.TkRegistered? ==> state == SettledNoRsv)
      && (ev.TkUnregistered? ==> state == SettledRsvOk)
      && (ev.BindRx? || ev.UnbindRx? || ev.SavedBindingParams? ==> Agrees(View()) && SrpAgrees(View()))
    }

    method RetryTimerFired(ghost env: Env)
      requires Receives(TmrRetry)
      modifies this
      ensures View() == Step(old(View()), TmrRetry, env) && Holds() == ResourcesOf(state)
    {
      if !discovered {
        SetProbing(Passive);
        Become(PrbWAvail);
      } else {
        StartDelay();
        Become(PrbWDelay);
      }
    }

    method NoTalkerTimerFired(ghost env: Env)
      requires Receives(TmrNoTk)
      modifies this
      ensures View() == Step(old(View()), TmrNoTk, env) && Holds() == ResourcesOf(state)
    {
      Disconnect();
      ProbeAgain();
    }

    method Registered(ghost env: Env)
      requires Receives(TkRegistered)
      modifies this
      ensures View() == Step(old(View()), TkRegistered, env) && Holds() == ResourcesOf(state)
    {
      StopNoTalker();
      Become(SettledRsvOk);
    }

    method Unregistered(ghost env: Env)
      requires Receives(TkUnregistered)
      modifies this
      ensures View() == Step(old(View()), TkUnregistered, env) && Holds() == ResourcesOf(state)
    {
      Disconnect();
      ProbeAgain();
    }

    /** The first timeout of a probe leaves it to the in-flight callback to send it again. */
    method NoResponse(ghost env: Env)
      requires Receives(TmrNoResp)
      modifies this
      ensures View() == Step(old(View()), TmrNoResp, env) && Holds() == ResourcesOf(state)
    {
      if state == PrbWResp {
        Become(PrbWResp2);
      } else if state == PrbWResp2 {
        StartRetry();
        SetAcmpStatus(STAT_LISTENER_TALKER_TIMEOUT);
        Become(PrbWRetry);
      }
    }

    /** The answer to the probe of this sink. */
    method Answered(ev: Event, ghost env: Env)
      requires ev.ProbeTxResp? && Receives(ev) && Probing(state) && env.inFlight
      modifies this
      ensures View() == Step(old(View()), ev, env) && Holds() == ResourcesOf(state)
    {
      if ev.status != STAT_SUCCESS {
        SetAcmpStatus(ev.status);
        StartRetry();
        Become(PrbWRetry);
      } else {
        Settle(ev.stream);
        StartNoTalker();
        Become(SettledNoRsv);
      }
    }

    method TalkerDiscovered(ghost env: Env)
      requires Receives(TkDiscovered)
      modifies this
      ensures View() == Step(old(View()), TkDiscovered, env) && Holds() == ResourcesOf(state)
    {
      if state == PrbWAvail {
        StartDelay();
        SetProbing(Active);
        Become(PrbWDelay);
      }
    }

    method GiveUp()
      modifies this
      ensures View() == old(View()).(acmpStatus := 0, state := PrbWAvail)
              && Holds() == old(Holds()).(probing := Passive)
    {
      SetProbing(Passive);
      Become(PrbWAvail);
    }

    /** The probe in flight, if any, has been cancelled. */
    method TalkerDeparted(ghost env: Env)
      requires Receives(TkDeparted)
      modifies this
      ensures View() == Step(old(View()), TkDeparted, env) && Holds() == ResourcesOf(state)
    {
      match state {
        case PrbWDelay =>
          StopDelay();
          GiveUp();
        case PrbWResp | PrbWResp2 =>
          GiveUp();
        case PrbWRetry =>
          StopRetry();
          GiveUp();
        case Unbound | PrbWAvail | SettledNoRsv | SettledRsvOk =>
      }
    }

    method StartFromSaved(ghost env: Env)
      requires Receives(SavedBindingParams)
      modifies this
      ensures View() == Step(old(View()), SavedBindingParams, env) && Holds() == ResourcesOf(state)
    {
      if state == Unbound {
        ResetDiscovery();
        SetProbing(Passive);
        Become(PrbWAvail);
      }
    }

    /** Between events, the timers and the SRP registration of the state are all that a sink holds. */
    ghost predicate HoldsOwn()
      reads this
    {
      && Holds() == ResourcesOf(state).(probing := probingStatus)
      && SrpAgrees(View()) && (!Settled(state) ==> stream == NoStream)
      && (discoveryTimer ==> discovered)
    }

    /** Probing for a new binding, once the new probe is on its way and the old one is cancelled: what each state
      holds is released. */
    method Restart()
      requires HoldsOwn()
      modifies this
      ensures View() == Forgot(Left(old(View()))).(state := PrbWResp)
      ensures Holds() == Resources(old(probingStatus), false, false, false, false)
    {
      match state {
        case Unbound | PrbWAvail | PrbWResp | PrbWResp2 =>
        case PrbWDelay => StopDelay();
        case PrbWRetry => StopRetry();
        case SettledNoRsv =>
          Disconnect();
          StopNoTalker();
        case SettledRsvOk => Disconnect();
      }
      ResetDiscovery();
      Become(PrbWResp);
    }

    /** Clear the binding, after the probe in flight, if any, is cancelled. */
    method Unbind()
      requires HoldsOwn() && (state == SinkState.Unbound ==> !discovered)
      modifies this
      ensures View() == Forgot(Left(old(View()))).(binding := NoBinding, acmpStatus := 0).(state := SinkState.Unbound)
      ensures Holds() == ResourcesOf(SinkState.Unbound)
    {
      match state {
        case Unbound =>
        case PrbWAvail | PrbWResp | PrbWResp2 => ResetDiscovery();
        case PrbWDelay =>
          ResetDiscovery();
          StopDelay();
        case PrbWRetry =>
          ResetDiscovery();
          StopRetry();
        case SettledNoRsv =>
          Disconnect();
          ResetDiscovery();
          StopNoTalker();
        case SettledRsvOk =>
          Disconnect();
          ResetDiscovery();
      }
      SetBinding(NoBinding);
      SetProbing(Disabled);
      Become(SinkState.Unbound);
    }
  }

  class Listener {
    const sinks: seq<StreamInput>
    const pool: Pool
    var sequenceId: nat
    var lock: Lock
    var gptp: seq<Gptp>

    ghost predicate Wf()
      reads this, pool, pool.storage
    {
      && (forall i, j :: 0 <= i < j < |sinks| ==> sinks[i] != sinks[j])
      && sequenceId < SEQUENCE_IDS
      && |gptp| == |sinks|
      && pool.Inv() && NothingHeld(pool.place)
      && pool.lists[1] == [] && pool.lists[2] == []
      && pool.storage.Length > |sinks|
    }

    ghost function Views(): (vs: seq<Sink>)
      reads sinks
      ensures |vs| == |sinks|
    {
      seq(|sinks|, i requires 0 <= i < |sinks| reads sinks => sinks[i].View())
    }

    /** The abstract state that SinkMachine speaks about. */
    ghost function Now(): State
      requires Wf()
      reads this, sinks, pool, pool.storage
    {
      State(Views(), pool.Flight(ACMP_HEAD), sequenceId, lock, gptp)
    }

    /** Between two events. */
    ghost predicate Valid()
      reads this, sinks, pool, pool.storage
    {
      && Wf() && pool.AtRest() && Inv(Now())
      && forall i :: 0 <= i < |sinks| ==> sinks[i].Holds() == ResourcesOf(sinks[i].state)
    }

    ghost predicate ValidAt(e: State)
      reads this, sinks, pool, pool.storage
    {
      Valid() && Now() == e
    }

    /** What that says of the fields of a sink: every timer runs in exactly one state, discovery, SRP, parameters and
      the stack connection match the state, and no other bound sink has the same talker. */
    lemma ValidMeans(i: nat)
      requires Valid() && i < |sinks|
      ensures var s := sinks[i];
              && (s.delayTimer <==> s.state == PrbWDelay)
              && (s.retryTimer <==> s.state == PrbWRetry)
              && (s.noTalkerTimer <==> s.state == SettledNoRsv)
              && (s.discoveryTimer <==> s.discovered)
              && (s.state == Unbound || s.state == PrbWAvail ==> !s.discovered)
              && (s.state == PrbWDelay ==> s.discovered)
              && (s.srpRegistering <==> s.state == SettledRsvOk)
              && (s.srpRegistering <==> s.srpStatus != NoTalker)
              && (s.probingStatus == Active <==> s.state in {PrbWDelay, PrbWResp, PrbWResp2, PrbWRetry})
              && (s.acmpStatus != 0 ==> s.probingStatus == Active)
              && (s.state == Unbound <==> NullTalker(s.binding))
              && (Open(s.log) <==> Settled(s.state))
              && (if Settled(s.state) then s.log[|s.log| - 1] == Connect(s.stream.id) else s.stream == NoStream)
      ensures forall j :: 0 <= j < |sinks| && j != i && sinks[i].state != Unbound && sinks[j].state != Unbound ==>
                !SameTalker(sinks[i].binding, sinks[j].binding)
    {
      assert Now().sinks[i] == sinks[i].View();
      forall j | 0 <= j < |sinks| && j != i && sinks[i].state != Unbound && sinks[j].state != Unbound
        ensures !SameTalker(sinks[i].binding, sinks[j].binding)
      {
        assert Now().sinks[j] == sinks[j].View();
        assert !SameTalker(Now().sinks[if i < j then i else j].binding, Now().sinks[if i < j then j else i].binding);
      }
    }

    /** A sink owns exactly one command in flight while it waits for a response, marked as retried in the second
      state, and none otherwise; and no other command is in flight. */
    lemma ProbesMean(i: nat)
      requires Valid() && i < |sinks|
      ensures var s, flight := sinks[i], Now().flight;
              && (Probing(s.state) <==> exists p :: 0 <= p < |flight| && flight[p].listenerUid == i)
              && (forall p :: 0 <= p < |flight| && flight[p].listenerUid == i ==>
                    flight[p].sequenceId == s.probeSeq && (flight[p].retried <==> s.state == PrbWResp2))
              && (forall p, q :: 0 <= p < q < |flight| ==> flight[p].listenerUid != flight[q].listenerUid)
              && (forall p :: 0 <= p < |flight| ==> flight[p].listenerUid < |sinks|)
    {
      var e := Now();
      assert e.sinks[i] == sinks[i].View();
      if Probing(sinks[i].state) {
        var p :| 0 <= p < |e.flight| && e.flight[p] == ProbeOf(e.sinks[i], i);
        assert e.flight[p].listenerUid == i;
      }
      forall p, q | 0 <= p < q < |e.flight| ensures e.flight[p].listenerUid != e.flight[q].listenerUid {
        OneProbeEach(e.flight, e.sinks, p, q);
      }
    }

    /** Any number of sinks, and a pool with at least one entry more. */
    constructor (count: nat, entries: nat, gptp: seq<Gptp>)
      requires |gptp| == count && entries > count
      ensures Valid() && |sinks| == count && pool.storage.Length == entries
      ensures forall i :: 0 <= i < count ==> sinks[i].state == Unbound && sinks[i].log == []
    {
      hide ResourcesOf;
      var inputs: seq<StreamInput> := [];
      while |inputs| < count
        invariant |inputs| <= count
        invariant forall i :: 0 <= i < |inputs| ==>
                    && fresh(inputs[i]) && Quiet(inputs[i].View())
                    && inputs[i].Holds() == ResourcesOf(inputs[i].state)
                    && inputs[i].state == Unbound && inputs[i].log == []
        invariant forall i, j :: 0 <= i < j < |inputs| ==> inputs[i] != inputs[j]
      {
        var input := new StreamInput();
        inputs := inputs + [input];
      }
      sinks := inputs;
      pool := new Pool(entries);
      sequenceId, lock := 0, Unlocked;
      this.gptp := gptp;
    }

    // -------------------------------------------------------------- the contract of the sink machine

    /** What the sink machine may rely on when event `ev` is delivered to sink `i`. */
    ghost predicate Deliverable(i: nat, ev: Event)
      reads this, sinks, pool, pool.storage
    {
      && i < |sinks| && Wf()
      && (ev.TmrNoResp? || (pool.firing == -1 && pool.free != []))
      && sinks[i].Receives(ev)
    }

    /** The facts outside the sink, as the abstract machine names them. */
    ghost predicate EnvIs(i: nat, ev: Event, env: Env)
      requires Wf()
      reads this, sinks, pool, pool.storage
    {
      && env.taken == (ev.BindRx? && Taken(Views(), i, ev.binding))
      && env.inFlight == (ev.ProbeTxResp? && InFlight(pool.Flight(ACMP_HEAD), ev.sequenceId))
      && env.nextSeq == sequenceId
    }

    /** The sink does what the abstract machine does, and holds the resources of its state again. */
    twostate predicate Stepped(i: nat, ev: Event, env: Env)
      requires i < |sinks| && old(Wf())
      reads this, sinks[i], pool, pool.storage
    {
      && Wf() && pool.firing == old(pool.firing)
      && sinks[i].View() == Step(old(sinks[i].View()), ev, env)
      && pool.Flight(ACMP_HEAD) == FlightStep(old(pool.Flight(ACMP_HEAD)), i, old(sinks[i].View()), ev, env)
      && sequenceId == (if Sends(old(sinks[i].View()), ev, env)
                          then (old(sequenceId) + 1) % SEQUENCE_IDS else old(sequenceId))
      && (ev.TmrNoResp? ==> pool.lists == old(pool.lists) && pool.free == old(pool.free))
      && ((ev.BindRx? && Accepted(env) && NullTalker(ev.binding)) || sinks[i].Holds() == ResourcesOf(sinks[i].state))
    }

    // -------------------------------------------------------------- binding and probing

    /** acmp_milan_send_probe_tx_command: remember the sequence id, then send and track the probe. */
    method SendProbe(i: nat)
      requires i < |sinks| && Wf() && pool.firing == -1 && pool.free != []
      modifies sinks[i], pool, pool.storage, this`sequenceId
      ensures Wf() && pool.firing == -1
      ensures sinks[i].View() == old(sinks[i].View()).(probeSeq := old(sequenceId))
      ensures sinks[i].Holds() == old(sinks[i].Holds())
      ensures sequenceId == (old(sequenceId) + 1) % SEQUENCE_IDS
      ensures pool.Flight(ACMP_HEAD) ==
              [Command(PROBE_TX_COMMAND, old(sequenceId), i,
                       sinks[i].binding.talker, sinks[i].binding.talkerUid, false)]
              + old(pool.Flight(ACMP_HEAD))
    {
      var sink := sinks[i];
      sink.probeSeq := sequenceId;
      var probe := Command(PROBE_TX_COMMAND, sequenceId, i, sink.binding.talker, sink.binding.talkerUid, false);
      sequenceId := SendCmd(pool, true, probe);
    }

    /** is_listener_already_bound_to_talker_unique_id: scan every other sink, bound or not. */
    method AlreadyBound(i: nat, b: Binding) returns (taken: bool)
      requires i < |sinks|
      ensures taken <==> Taken(Views(), i, b)
    {
      taken := false;
      for j := 0 to |sinks|
        invariant forall k :: 0 <= k < j && k != i ==> !SameTalker(Views()[k].binding, b)
      {
        if j != i && SameTalker(sinks[j].binding, b) {
          assert SameTalker(Views()[j].binding, b);
          return true;
        }
      }
    }

    /** acmp_milan_listener_bind: `ok` when the binding was accepted, `restart` when a probe was sent for it. */
    method Bind(i: nat, b: Binding) returns (ok: bool, restart: bool, rsp: seq<Response>)
      requires i < |sinks| && Wf() && pool.firing == -1 && pool.free != []
      modifies sinks[i], pool, pool.storage, this`sequenceId
      ensures Wf() && pool.firing == -1
      ensures ok <==> !Taken(old(Views()), i, b)
      ensures restart <==> ok && !SameTalker(old(sinks[i].binding), b)
      ensures sinks[i].View() ==
              if ok then Rebound(old(sinks[i].View()), b, restart, old(sequenceId)) else old(sinks[i].View())
      ensures sinks[i].Holds() ==
              if restart then old(sinks[i].Holds()).(probing := Active) else old(sinks[i].Holds())
      ensures sequenceId == if restart then (old(sequenceId) + 1) % SEQUENCE_IDS else old(sequenceId)
      ensures pool.Flight(ACMP_HEAD) ==
              (if restart then [Command(PROBE_TX_COMMAND, old(sequenceId), i, b.talker, b.talkerUid, false)] else [])
              + old(pool.Flight(ACMP_HEAD))
      ensures rsp == [if ok then Response(BIND_RX_COMMAND + 1, STAT_SUCCESS, 1, false, false)
                      else Response(BIND_RX_COMMAND + 1, STAT_TALKER_EXCLUSIVE, 0, false, false)]
    {
      restart := false;
      var taken := AlreadyBound(i, b);
      if taken {
        ok, rsp := false, [Response(BIND_RX_COMMAND + 1, STAT_TALKER_EXCLUSIVE, 0, false, false)];
        return;
      }
      var sink := sinks[i];
      restart := !SameTalker(sink.binding, b);
      sink.SetBinding(b);
      ok, rsp := true, [Response(BIND_RX_COMMAND + 1, STAT_SUCCESS, 1, false, false)];
      if restart {
        SendProbe(i);
        sink.SetProbing(Active);
      }
    }

    /** acmp_milan_send_get_rx_state_response. */
    method GetRxStateResponse(i: nat) returns (rsp: seq<Response>)
      requires i < |sinks| && Wf()
      ensures forall env :: rsp == ReplyOf(sinks[i].View(), GetRxState, env)
    {
      var sink := sinks[i];
      rsp := [Response(GET_RX_STATE_COMMAND + 1, STAT_SUCCESS, if sink.state != Unbound then 1 else 0,
                       sink.state != Unbound, sink.state == SettledRsvOk && sink.srpStatus == TalkerFailed)];
    }

    // -------------------------------------------------------------- the sink machine

    /** Stop waiting for the answer to a probe. */
    method CancelProbe(sequenceId': nat)
      requires Wf()
      modifies pool, pool.storage
      ensures Wf() && pool.firing == old(pool.firing)
      ensures pool.Flight(ACMP_HEAD) == RemoveFirst(old(pool.Flight(ACMP_HEAD)), sequenceId')
    {
      var found := pool.Cancel(ACMP_HEAD, sequenceId');
    }

    /** The old probe is cancelled only now that the new one is queued. */
    method RestartProbing(i: nat, probeSeq: nat)
      requires i < |sinks| && Wf() && sinks[i].HoldsOwn()
      modifies sinks[i], pool, pool.storage
      ensures Wf() && pool.firing == old(pool.firing)
      ensures sinks[i].View() == Forgot(Left(old(sinks[i].View()))).(state := PrbWResp)
      ensures sinks[i].Holds() == Resources(old(sinks[i].probingStatus), false, false, false, false)
      ensures pool.Flight(ACMP_HEAD) ==
              if Probing(old(sinks[i].state)) then RemoveFirst(old(pool.Flight(ACMP_HEAD)), probeSeq)
              else old(pool.Flight(ACMP_HEAD))
    {
      if Probing(sinks[i].state) {
        CancelProbe(probeSeq);
      }
      sinks[i].Restart();
    }

    method BindRxCommand(i: nat, ev: Event, ghost env: Env) returns (rsp: seq<Response>)
      requires ev.BindRx? && Deliverable(i, ev) && EnvIs(i, ev, env) && !env.locked
      modifies sinks[i], pool, pool.storage, this`sequenceId
      ensures Stepped(i, ev, env) && rsp == ReplyOf(old(sinks[i].View()), ev, env)
    {
      var sink := sinks[i];
      var probeSeq := sink.probeSeq;
      BindSteps(sink.View(), i, pool.Flight(ACMP_HEAD), ev, env);
      hide Step, FlightStep, Sends;
      var ok, restart;
      ok, restart, rsp := Bind(i, ev.binding);
      if ok && (restart || sink.state == Unbound) {
        RestartProbing(i, probeSeq);
      }
    }

    method UnbindRxCommand(i: nat, ev: Event, ghost env: Env) returns (rsp: seq<Response>)
      requires ev.UnbindRx? && Deliverable(i, ev) && EnvIs(i, ev, env) && !env.locked
      modifies sinks[i], pool, pool.storage, this`sequenceId
      ensures Stepped(i, ev, env) && rsp == ReplyOf(old(sinks[i].View()), ev, env)
    {
      var sink := sinks[i];
      if Probing(sink.state) {
        CancelProbe(sink.probeSeq);
      }
      sink.Unbind();
      rsp := [Response(UNBIND_RX_COMMAND + 1, STAT_SUCCESS, 0, false, false)];
    }

    method ProbeTxResponse(i: nat, ev: Event, ghost env: Env)
      requires ev.ProbeTxResp? && Deliverable(i, ev) && EnvIs(i, ev, env)
      modifies sinks[i], pool, pool.storage
      ensures Stepped(i, ev, env)
    {
      var sink := sinks[i];
      if Probing(sink.state) {
        var found := pool.Cancel(ACMP_HEAD, ev.sequenceId);
        if found {
          sink.Answered(ev, env);
        }
      }
    }

    method TalkerDeparted(i: nat, ev: Event, ghost env: Env)
      requires ev.TkDeparted? && Deliverable(i, ev)
      modifies sinks[i], pool, pool.storage
      ensures Stepped(i, ev, env)
    {
      var sink := sinks[i];
      if Probing(sink.state) {
        CancelProbe(sink.probeSeq);
      }
      sink.TalkerDeparted(env);
    }

    method DelayTimerFired(i: nat, ev: Event, ghost env: Env)
      requires ev.TmrDelay? && Deliverable(i, ev) && EnvIs(i, ev, env)
      modifies sinks[i], pool, pool.storage, this`sequenceId
      ensures Stepped(i, ev, env)
    {
      SendProbe(i);
      sinks[i].Become(PrbWResp);
    }

    /** Nothing but sink `i`, the commands in flight and the next sequence id has moved. */
    twostate lemma OnlySinkMoved(i: nat)
      requires i < |sinks| && old(Wf()) && Wf() && lock == old(lock) && gptp == old(gptp)
      requires forall j :: 0 <= j < |sinks| && j != i ==> sinks[j].View() == old(sinks[j].View())
      ensures Now() == old(Now()).(sinks := old(Now()).sinks[i := sinks[i].View()],
                                   flight := pool.Flight(ACMP_HEAD), nextSeq := sequenceId)
    {
      assert Views() == old(Views())[i := sinks[i].View()];
    }

    /** acmp_milan_listener_sink_sm: the lock is checked before the event is looked at. */
    method SinkSm(i: nat, ev: Event) returns (rsp: seq<Response>)
      requires Deliverable(i, ev)
      modifies sinks[i], pool, pool.storage, this`sequenceId
      ensures Wf() && pool.firing == old(pool.firing)
      ensures Now() == SinkAt(old(Now()), i, ev)
      ensures rsp == Reply(old(Now()), i, ev)
      ensures ev.TmrNoResp? ==> pool.lists == old(pool.lists) && pool.free == old(pool.free)
      ensures (ev.BindRx? && Accepted(EnvOf(old(Now()), i, ev)) && NullTalker(ev.binding))
              || sinks[i].Holds() == ResourcesOf(sinks[i].state)
    {
      ghost var e := Now();
      ghost var env := EnvOf(e, i, ev);
      assert e.sinks[i] == sinks[i].View();
      rsp := Dispatch(i, ev, env);
      OnlySinkMoved(i);
    }

    method Dispatch(i: nat, ev: Event, ghost env: Env) returns (rsp: seq<Response>)
      requires Deliverable(i, ev) && EnvIs(i, ev, env)
      requires env.locked == ((ev.BindRx? && Locked(lock, ev.binding.controller))
                              || (ev.UnbindRx? && Locked(lock, ev.controller)))
      modifies sinks[i], pool, pool.storage, this`sequenceId
      ensures Stepped(i, ev, env)
      ensures rsp == ReplyOf(old(sinks[i].View()), ev, env)
    {
      var sink := sinks[i];
      rsp := [];
      if ev.BindRx? {
        if Locked(lock, ev.binding.controller) {
          rsp := [Response(BIND_RX_COMMAND + 1, STAT_CONTROLLER_NOT_AUTHORIZED, 0, false, false)];
        } else {
          rsp := BindRxCommand(i, ev, env);
        }
      } else if ev.UnbindRx? {
        if Locked(lock, ev.controller) {
          rsp := [Response(UNBIND_RX_COMMAND + 1, STAT_CONTROLLER_NOT_AUTHORIZED, 0, false, false)];
        } else {
          rsp := UnbindRxCommand(i, ev, env);
        }
      } else if ev.GetRxState? {
        rsp := GetRxStateResponse(i);
      } else if ev.ProbeTxResp? {
        ProbeTxResponse(i, ev, env);
      } else if ev.TkDeparted? {
        TalkerDeparted(i, ev, env);
      } else if ev.TmrDelay? {
        DelayTimerFired(i, ev, env);
      } else if !ev.UnknownEvent? {
        LocalEvent(i, ev, env);
      }
    }

    method LocalEvent(i: nat, ev: Event, ghost env: Env)
      requires Deliverable(i, ev)
      requires ev.TmrRetry? || ev.TmrNoTk? || ev.TmrNoResp? || ev.TkRegistered? || ev.TkUnregistered?
            || ev.TkDiscovered? || ev.SavedBindingParams?
      modifies sinks[i]
      ensures sinks[i].View() == Step(old(sinks[i].View()), ev, env)
      ensures sinks[i].Holds() == ResourcesOf(sinks[i].state)
    {
      var sink := sinks[i];
      if ev.TmrRetry? {
        sink.RetryTimerFired(env);
      } else if ev.TmrNoTk? {
        sink.NoTalkerTimerFired(env);
      } else if ev.TmrNoResp? {
        sink.NoResponse(env);
      } else if ev.TkRegistered? {
        sink.Registered(env);
      } else if ev.TkUnregistered? {
        sink.Unregistered(env);
      } else if ev.TkDiscovered? {
        sink.TalkerDiscovered(env);
      } else {
        sink.StartFromSaved(env);
      }
    }

    // -------------------------------------------------------------- discovery

    /** There is always an entry for the next probe. */
    lemma FreeEntry()
      requires Wf() && Owned(Now().flight, Now().sinks)
      ensures pool.free != []
    {
      PoolSuffices(pool.place, pool.free, pool.lists, Now().flight, Now().sinks);
    }

    /** The talker departs: the sink hears of it before discovery records it. */
    method Depart(i: nat)
      requires Wf() && pool.firing == -1 && i < |sinks| && Core(Now())
      requires sinks[i].Holds() == ResourcesOf(sinks[i].state)
      modifies sinks[i], pool, pool.storage, this`sequenceId
      ensures Wf() && pool.firing == -1
      ensures Now() == Undiscovered(SinkAt(old(Now()), i, TkDeparted), i)
      ensures sinks[i].Holds() == ResourcesOf(sinks[i].state)
    {
      FreeEntry();
      assert Now().sinks[i] == sinks[i].View();
      var rsp := SinkSm(i, TkDeparted);
      label Told:
      assert Now().sinks[i] == sinks[i].View();
      sinks[i].SetDiscovered(false);
      OnlySinkMoved@Told(i);
    }

    /** The talker is discovered: again the sink hears of it first. */
    method Discover(i: nat, available: nat)
      requires Wf() && pool.firing == -1 && i < |sinks| && Core(Now())
      requires sinks[i].Holds() == ResourcesOf(sinks[i].state)
      modifies sinks[i], pool, pool.storage, this`sequenceId
      ensures Wf() && pool.firing == -1
      ensures Now() == Discovered(SinkAt(old(Now()), i, TkDiscovered), i, available)
      ensures sinks[i].Holds() == ResourcesOf(sinks[i].state)
    {
      FreeEntry();
      assert Now().sinks[i] == sinks[i].View();
      var rsp := SinkSm(i, TkDiscovered);
      label Told:
      assert Now().sinks[i] == sinks[i].View();
      sinks[i].HearAgain(available);
      sinks[i].SetDiscovered(true);
      OnlySinkMoved@Told(i);
    }

    /**
     An ENTITY_AVAILABLE of a talker that is discovered.  A regressed available_index means that the talker
     restarted: it departs, and unless its gPTP no longer matches it is discovered again in the same call.
     */
    method StillAvailable(i: nat, adp: AdpEvent)
      requires Wf() && pool.firing == -1 && i < |sinks| && Core(Now())
      requires sinks[i].Holds() == ResourcesOf(sinks[i].state)
      requires adp.Available? && sinks[i].discovered && adp.interface == sinks[i].interfaceIndex
      modifies sinks[i], pool, pool.storage, this`sequenceId
      ensures Wf() && pool.firing == -1
      ensures Now() == DiscoveryAt(old(Now()), i, adp)
      ensures sinks[i].Holds() == ResourcesOf(sinks[i].state)
    {
      hide Step, FlightStep;
      var sink := sinks[i];
      ghost var e := Now();
      assert e.sinks[i] == sink.View();
      if Regressed(adp.available, sink.availableIndex) {
        FreeEntry();
        var rsp := SinkSm(i, TkDeparted);
        label Told:
        assert Now().sinks[i] == sink.View();
        if adp.gptp != gptp[i] {
          sink.StopDiscoveryTimer();
          sink.SetDiscovered(false);
          OnlySinkMoved@Told(i);
        } else {
          CoreAt(e, i, TkDeparted);
          Discover(i, adp.available);
        }
      } else {
        sink.HearAgain(adp.available);
        OnlySinkMoved(i);
      }
    }

    /**
     adp_milan_listener_sink_discovery_sm: the sink hears of the discovery or the departure before talkerState is
     written, so the two machines disagree in the middle of the call and agree again at its end.
     */
    method DiscoverySm(i: nat, adp: AdpEvent)
      requires Wf() && pool.firing == -1 && i < |sinks|
      requires DiscoveryReady(Now(), i, adp) && sinks[i].Holds() == ResourcesOf(sinks[i].state)
      modifies sinks[i], pool, pool.storage, this`sequenceId
      ensures Wf() && pool.firing == -1
      ensures Now() == DiscoveryAt(old(Now()), i, adp)
      ensures sinks[i].Holds() == ResourcesOf(sinks[i].state)
    {
      var sink := sinks[i];
      ghost var e := Now();
      assert e.sinks[i] == sink.View();
      if adp.Available? {
        if sink.discovered {
          if adp.interface == sink.interfaceIndex {
            StillAvailable(i, adp);
          }
        } else if adp.gptp == gptp[i] {
          sink.Hear(adp.available, adp.interface);
          OnlySinkMoved(i);
          CorePut(e, i, sink.View());
          Discover(i, adp.available);
        }
      } else if sink.discovered {
        if adp.NoAdp? {
          Depart(i);
        } else if adp.interface == sink.interfaceIndex {
          sink.StopDiscoveryTimer();
          OnlySinkMoved(i);
          CorePut(e, i, sink.View());
          Depart(i);
        }
      }
    }

    // -------------------------------------------------------------- entry points

    /** acmp_milan_listener_rcv: an ACMP message for listener `uid`, which may not exist. */
    method AcmpRcv(uid: nat, ev: Event) returns (rsp: seq<Response>)
      requires Valid() && Received(ev)
      modifies sinks, pool, pool.storage, this`sequenceId
      ensures Wf() && Now() == Next(old(Now()), AcmpReceived(uid, ev))
      ensures rsp == Reply(old(Now()), uid, ev)
      ensures Valid() <==> Admissible(old(Now()), AcmpReceived(uid, ev))
    {
      ghost var e := Now();
      StepExact(e, AcmpReceived(uid, ev));
      if uid < |sinks| {
        FreeEntry();
        assert e.sinks[uid] == sinks[uid].View();
        rsp := SinkSm(uid, ev);
      } else if ev.BindRx? {
        rsp := [Response(BIND_RX_COMMAND + 1, STAT_LISTENER_UNKNOWN_ID, 0, false, false)];
      } else if ev.UnbindRx? {
        rsp := [Response(UNBIND_RX_COMMAND + 1, STAT_LISTENER_UNKNOWN_ID, 0, false, false)];
      } else if ev.GetRxState? {
        rsp := [Response(GET_RX_STATE_COMMAND + 1, STAT_LISTENER_UNKNOWN_ID, 0, false, false)];
      } else {
        rsp := [];
      }
    }

    /** TMR_DELAY, TMR_RETRY and TMR_NO_TK: a timer stops before its callback runs. */
    method TimerRcv(i: nat, timer: Event)
      requires Valid() && i < |sinks|
      requires match timer {
                 case TmrDelay => sinks[i].delayTimer
                 case TmrRetry => sinks[i].retryTimer
                 case TmrNoTk => sinks[i].noTalkerTimer
                 case _ => false
               }
      modifies sinks[i], pool, pool.storage, this`sequenceId
      ensures Wf() && Occurs(old(Now()), TimerFires(i, timer))
      ensures Now() == Next(old(Now()), TimerFires(i, timer))
      ensures Valid() <==> Admissible(old(Now()), TimerFires(i, timer))
    {
      hide Step, FlightStep;
      ghost var e := Now();
      assert e.sinks[i] == sinks[i].View();
      StepExact(e, TimerFires(i, timer));
      FreeEntry();
      sinks[i].ExpireTimer(timer);
      OnlySinkMoved(i);
      assert Now().sinks == e.sinks;
      var rsp := SinkSm(i, timer);
    }

    /** adp_discovery_timer. */
    method DiscoveryTimerRcv(i: nat)
      requires Valid() && i < |sinks| && sinks[i].discoveryTimer
      modifies sinks[i], pool, pool.storage, this`sequenceId
      ensures Valid() && Occurs(old(Now()), DiscoveryTimerFires(i))
      ensures Now() == Next(old(Now()), DiscoveryTimerFires(i))
    {
      hide DiscoveryAt, Step, FlightStep;
      ghost var e := Now();
      assert e.sinks[i] == sinks[i].View();
      NoAdpInv(e, i);
      sinks[i].StopDiscoveryTimer();
      OnlySinkMoved(i);
      CorePut(e, i, sinks[i].View());
      DiscoverySm(i, NoAdp);
    }

    /** acmp_inflight_timeout: tell the sink; a command that was sent once is sent again. */
    method AcmpInflightTimeout(p: nat) returns (verdict: Verdict)
      requires Wf() && p < |pool.lists[ACMP_HEAD]| && Owned(Now().flight, Now().sinks)
      requires forall i :: 0 <= i < |sinks| ==>
                 sinks[i].Holds() == ResourcesOf(sinks[i].state) && Plain(sinks[i].View())
      modifies sinks, pool, pool.storage, this`sequenceId
      ensures Wf() && pool.firing == old(pool.firing) && pool.lists == old(pool.lists)
      ensures old(Now()).flight[p].listenerUid < |sinks|
      ensures Now() == SinkAt(old(Now()), old(Now()).flight[p].listenerUid, TmrNoResp).(
                         flight := if old(Now()).flight[p].retried then old(Now()).flight
                                   else old(Now()).flight[p := old(Now()).flight[p].(retried := true)])
      ensures verdict == if old(Now()).flight[p].retried then TimerStop else TimerRestart
      ensures forall i :: 0 <= i < |sinks| ==> sinks[i].Holds() == ResourcesOf(sinks[i].state)
    {
      hide Step, FlightStep;
      var command := pool.storage[pool.lists[ACMP_HEAD][p]].command;
      assert command == Now().flight[p];
      var i := command.listenerUid;
      assert Now().sinks[i] == sinks[i].View();
      NoResponseSendsNothing(Now(), i);
      var rsp := SinkSm(i, TmrNoResp);
      if command.retried {
        verdict := TimerStop;
      } else {
        verdict := TimerRestart;
        pool.MarkRetried(ACMP_HEAD, p);
      }
    }

    method ExpireCommand(p: nat)
      requires Valid() && p < |pool.lists[ACMP_HEAD]|
      modifies pool, pool.storage
      ensures Wf() && pool.lists == old(pool.lists) && pool.firing == old(pool.lists)[ACMP_HEAD][p]
      ensures Now() == old(Now())
    {
      pool.Expire(ACMP_HEAD, p);
    }

    method CompleteCommand(p: nat, verdict: Verdict)
      requires Wf() && p < |pool.lists[ACMP_HEAD]| && pool.firing == pool.lists[ACMP_HEAD][p]
      modifies pool, pool.storage
      ensures Wf() && pool.AtRest()
      ensures Now() == old(Now()).(flight := if verdict == TimerRestart then old(Now()).flight
                                             else old(Now()).flight[..p] + old(Now()).flight[p + 1..])
    {
      pool.Complete(ACMP_HEAD, p, verdict);
    }

    method RunTimeout(p: nat)
      requires Wf() && p < |pool.lists[ACMP_HEAD]| && pool.firing == pool.lists[ACMP_HEAD][p]
      requires Owned(Now().flight, Now().sinks)
      requires forall i :: 0 <= i < |sinks| ==>
                 sinks[i].Holds() == ResourcesOf(sinks[i].state) && Plain(sinks[i].View())
      modifies sinks, pool, pool.storage, this`sequenceId
      ensures Wf() && pool.AtRest() && Now() == NoResponseAt(old(Now()), p)
      ensures forall i :: 0 <= i < |sinks| ==> sinks[i].Holds() == ResourcesOf(sinks[i].state)
    {
      var verdict := AcmpInflightTimeout(p);
      CompleteCommand(p, verdict);
    }

    /** The timeout of the p-th command in flight: avdecc_inflight_timeout with the ACMP callback. */
    method InflightTimeout(p: nat)
      requires Valid() && p < |pool.lists[ACMP_HEAD]|
      modifies sinks, pool, pool.storage, this`sequenceId
      ensures Valid() && Now() == Next(old(Now()), NoResponse(p))
    {
      ghost var e := Now();
      NoResponseInv(e, p);
      forall i | 0 <= i < |sinks| ensures Plain(sinks[i].View()) {
        assert e.sinks[i] == sinks[i].View();
      }
      ExpireCommand(p);
      RunTimeout(p);
    }

    /** The ADP message reaches sink `i` if it is bound to the entity. */
    method AdpToSink(i: nat, entityId: nat, adp: AdpEvent, ghost start: State)
      requires i < |sinks| && |start.sinks| == |start.gptp| == |sinks| && (adp.Available? || adp.Departing?)
      requires ValidAt(AdpUpTo(start, entityId, adp, i))
      modifies sinks[i], pool, pool.storage, this`sequenceId
      ensures ValidAt(AdpUpTo(start, entityId, adp, i + 1))
    {
      ghost var e := Now();
      assert e.sinks[i] == sinks[i].View();
      AdpAtInv(e, i, entityId, adp);
      if sinks[i].state != Unbound && sinks[i].binding.talker == entityId {
        DiscoverySm(i, adp);
      }
    }

    method AdpToSinks(entityId: nat, adp: AdpEvent)
      requires Valid() && (adp.Available? || adp.Departing?)
      modifies sinks, pool, pool.storage, this`sequenceId
      ensures ValidAt(AdpUpTo(old(Now()), entityId, adp, |sinks|))
    {
      hide AdpUpTo, AdpAt;
      ghost var start := Now();
      AdpUpToNone(start, entityId, adp);
      for i := 0 to |sinks|
        invariant ValidAt(AdpUpTo(start, entityId, adp, i))
      {
        AdpToSink(i, entityId, adp, start);
      }
    }

    /** adp_milan_listener_rcv: every sink bound to the talker entity hears of it. */
    method AdpRcv(entityId: nat, adp: AdpEvent)
      requires Valid() && (adp.Available? || adp.Departing?)
      modifies sinks, pool, pool.storage, this`sequenceId
      ensures Valid() && Now() == Next(old(Now()), AdpReceived(entityId, adp))
    {
      hide AdpUpTo, AdpAt;
      AdpToSinks(entityId, adp);
    }

    /** acmp_milan_get_listener_unique_id: the first sink with this stream id. */
    method GetListenerUniqueId(streamId: nat) returns (i: nat)
      ensures i == FindStream(Views(), streamId, 0)
    {
      i := 0;
      while i < |sinks| && sinks[i].stream.id != streamId
        invariant 0 <= i <= |sinks|
        invariant FindStream(Views(), streamId, 0) == FindStream(Views(), streamId, i)
      {
        assert Views()[i] == sinks[i].View();
        i := i + 1;
      }
      assert i < |sinks| ==> Views()[i] == sinks[i].View();
    }

    method SrpRcv(status: SrpStatus, stream: Stream)
      requires Valid()
      modifies sinks, pool, pool.storage, this`sequenceId
      ensures Valid() && Now() == Next(old(Now()), SrpReceived(status, stream))
    {
      hide SrpAt, Inv, AdpUpTo, DiscoveryAt;
      var i := GetListenerUniqueId(stream.id);
      if i < |sinks| {
        SrpStateSm(i, status, stream);
      }
    }

    /** acmp_milan_listener_srp_state_sm: only a settled sink listens, and only to its own stream. */
    method SrpStateSm(i: nat, status: SrpStatus, stream: Stream)
      requires Valid() && i < |sinks|
      modifies sinks[i], pool, pool.storage, this`sequenceId
      ensures Valid() && Now() == SrpAt(old(Now()), i, status, stream)
    {
      var sink := sinks[i];
      assert Now().sinks[i] == sink.View();
      SrpInv(Now(), i, status, stream);
      if Settled(sink.state) && !(status != NoTalker && stream != sink.stream) {
        if !sink.srpRegistering && status != NoTalker {
          SrpMoves(i, status, TkRegistered);
        } else if sink.srpRegistering && status == NoTalker {
          SrpMoves(i, status, TkUnregistered);
        } else {
          sink.HearSrp(status, sink.srpRegistering);
          OnlySinkMoved(i);
        }
      }
    }

    /** The SRP state moves first, then the sink machine is told. */
    method SrpMoves(i: nat, status: SrpStatus, ev: Event)
      requires Valid() && i < |sinks|
      requires (ev.TkRegistered? && sinks[i].state == SettledNoRsv)
               || (ev.TkUnregistered? && sinks[i].state == SettledRsvOk)
      modifies sinks[i], pool, pool.storage, this`sequenceId
      ensures Wf() && pool.firing == -1
      ensures Now() == SinkAt(Put(old(Now()), i, old(Now()).sinks[i].(srp := status)), i, ev)
      ensures sinks[i].Holds() == ResourcesOf(sinks[i].state)
    {
      hide Step, FlightStep;
      FreeEntry();
      assert Now().sinks[i] == sinks[i].View();
      sinks[i].HearSrp(status, ev.TkRegistered?);
      OnlySinkMoved(i);
      var rsp := SinkSm(i, ev);
    }

    /** acmp_milan_listener_sink_rcv_binding_params: the parameters are written before the state is looked at. */
    method SavedBindingRcv(i: nat, b: Binding) returns (ok: bool)
      requires Valid()
      modifies sinks, pool, pool.storage, this`sequenceId
      ensures ok <==> SavedUsable(old(Now()), i, b)
      ensures Wf() && Now() == Next(old(Now()), SavedBinding(i, b))
      ensures Valid() <==> Admissible(old(Now()), SavedBinding(i, b))
    {
      hide Step, FlightStep;
      ghost var e := Now();
      StepExact(e, SavedBinding(i, b));
      ok := i < |sinks| && b.talker != 0 && b.controller != 0;
      if ok {
        FreeEntry();
        assert e.sinks[i] == sinks[i].View();
        sinks[i].SetBinding(b);
        OnlySinkMoved(i);
        var rsp := SinkSm(i, SavedBindingParams);
      }
    }

    /** The entity lock and the gPTP identities belong to other components. */
    method SetElsewhere(newLock: Lock, newGptp: seq<Gptp>)
      requires Valid() && |newGptp| == |sinks|
      modifies this`lock, this`gptp
      ensures Valid() && Now() == Next(old(Now()), Elsewhere(newLock, newGptp))
    {
      lock, gptp := newLock, newGptp;
    }

    /** acmp_milan_exit: settled sinks are disconnected and all timers destroyed. */
    method Exit()
      requires Valid()
      modifies sinks
      ensures forall i :: 0 <= i < |sinks| ==>
                && Alternates(sinks[i].log) && !Open(sinks[i].log)
                && sinks[i].log == Released(old(Now()).sinks[i])
                && sinks[i].TimersAre(false, false, false)
    {
      hide Owned, Exclusive;
      ghost var e := Now();
      for i := 0 to |sinks|
        invariant forall j :: 0 <= j < i ==>
                    sinks[j].log == Released(e.sinks[j]) && sinks[j].TimersAre(false, false, false)
        invariant forall j :: i <= j < |sinks| ==> sinks[j].View() == e.sinks[j]
      {
        sinks[i].Shutdown();
      }
      forall i | 0 <= i < |sinks|
        ensures Alternates(sinks[i].log) && !Open(sinks[i].log)
      {
        ReleasedOk(e.sinks[i]);
      }
    }
  }
}
