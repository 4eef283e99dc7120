/**
 What every event does to a sink of the Milan listener, told from the outside: each condition is written out in terms
 of what the sink remembers, what was received and what is in flight.
 */
module SinkOutcomes {
  import opened WrapArithmetic
  import opened InflightPool
  import opened AcmpCommands
  import opened SinkMachine
  import opened SinkInvariants
  import opened SinkRuns

  // ---------------------------------------------------------------- probing

  /** The probe of sink `i` as it is first sent. */
  function FirstProbe(b: Binding, sequenceId: nat, i: nat): (c: Command) {
    Command(PROBE_TX_COMMAND, sequenceId, i, b.talker, b.talkerUid, false)
  }

  /** Of the commands in flight, those of sink `i` are gone and those of all others are still there. */
  ghost predicate OnlyOthers(flight: seq<Command>, i: nat, was: seq<Command>) {
    forall c :: c in flight <==> c in was && c.listenerUid != i
  }

  lemma OwnProbeLeaves(flight: seq<Command>, sinks: seq<Sink>, i: nat)
    requires Owned(flight, sinks) && i < |sinks| && Probing(sinks[i].state)
    ensures OnlyOthers(RemoveFirst(flight, sinks[i].probeSeq), i, flight)
  {
    var p := CancelOwn(flight, sinks, i);
    var rest := Without(flight, p);
    forall c ensures c in rest <==> c in flight && c.listenerUid != i {
      if c in rest {
        var q :| 0 <= q < |rest| && rest[q] == c;
        OneProbeEach(flight, sinks, p, Skip(p, q));
      } else if c in flight && c.listenerUid != i {
        WithoutKeepsOthers(flight, p, c);
      }
    }
  }

  /** Every timer moves its sink on. After the delay the sink probes under the next sequence id; after the retry period
    it waits for its talker, or for the delay once more; without a reservation it gives the stream up. */
  lemma TimersMove(e: State, i: nat, timer: Event)
    requires Inv(e) && Occurs(e, TimerFires(i, timer))
    ensures var s, r := e.sinks[i], Next(e, TimerFires(i, timer)); var s' := r.sinks[i];
            && s'.state != s.state
            && (timer.TmrDelay? ==>
                  && s' == s.(state := PrbWResp, probeSeq := e.nextSeq)
                  && r.flight == [FirstProbe(s.binding, e.nextSeq, i)] + e.flight
                  && r.nextSeq == (e.nextSeq + 1) % 0x1_0000)
            && (timer.TmrRetry? ==>
                  && s' == (if s.discovered then s.(state := PrbWDelay) else s.(state := PrbWAvail, acmpStatus := 0))
                  && r.flight == e.flight)
            && (timer.TmrNoTk? ==> s' == LooksAgain(s) && r.flight == e.flight)
  {
  }

  /** A stream is given up: disconnected once, and probed for again, at once when its talker is still discovered. */
  function LooksAgain(s: Sink): (s': Sink) {
    s.(state := if s.discovered then PrbWDelay else PrbWAvail, stream := NoStream, srp := NoTalker, acmpStatus := 0,
       log := s.log + [Disconnect(s.stream.id)])
  }

  /** A probe that is not answered is sent twice, and only then does the sink retry later. */
  lemma ProbeSentTwice(e: State, p: nat)
    requires Inv(e) && p < |e.flight|
    ensures var c, r := e.flight[p], Next(e, NoResponse(p)); var i := c.listenerUid;
            && i < |e.sinks| && Inv(r)
            && (!c.retried ==>
                  && r.flight == e.flight[p := c.(retried := true)]
                  && r.sinks == e.sinks[i := e.sinks[i].(state := PrbWResp2)])
            && (c.retried ==>
                  && OnlyOthers(r.flight, i, e.flight)
                  && r.sinks == e.sinks[i := e.sinks[i].(state := PrbWRetry, acmpStatus := 7)])
  {
    var i := e.flight[p].listenerUid;
    assert e.flight[p] == ProbeOf(e.sinks[i], i);
    NoResponseInv(e, p);
    NoResponseIs(e, p);
    hide Next;
    if e.flight[p].retried {
      RemoveFirstAt(e.flight, e.sinks[i].probeSeq, p);
      OwnProbeLeaves(e.flight, e.sinks, i);
    }
  }

  lemma NoResponseIs(e: State, p: nat)
    requires |e.sinks| == |e.gptp| && p < |e.flight| && e.flight[p].listenerUid < |e.sinks|
    requires e.sinks[e.flight[p].listenerUid].state == if e.flight[p].retried then PrbWResp2 else PrbWResp
    ensures var c, r := e.flight[p], Next(e, NoResponse(p)); var i := c.listenerUid;
            if c.retried then
              && r.flight == e.flight[..p] + e.flight[p + 1..]
              && r.sinks == e.sinks[i := e.sinks[i].(state := PrbWRetry, acmpStatus := 7)]
            else
              && r.flight == e.flight[p := c.(retried := true)]
              && r.sinks == e.sinks[i := e.sinks[i].(state := PrbWResp2)]
  {
  }

  /** The answer to the probe of a sink ends the probe and nothing else: with SUCCESS the sink is settled on the stream
    of the answer, otherwise it retries later and shows the status of the answer. */
  lemma ProbeAnswered(e: State, i: nat, status: nat, stream: Stream)
    requires Inv(e) && i < |e.sinks| && e.sinks[i].state in {PrbWResp, PrbWResp2}
    ensures var s := e.sinks[i]; var r := Next(e, AcmpReceived(i, ProbeTxResp(s.probeSeq, status, stream)));
            && OnlyOthers(r.flight, i, e.flight)
            && r.sinks == e.sinks[i := if status == 0
                 then s.(state := SettledNoRsv, stream := stream, acmpStatus := 0, log := s.log + [Connect(stream.id)])
                 else s.(state := PrbWRetry, acmpStatus := status)]
  {
    OwnProbeLeaves(e.flight, e.sinks, i);
    assert ProbeOf(e.sinks[i], i) in e.flight;
  }

  // ---------------------------------------------------------------- binding

  /** Another controller holds the entity, or another sink has the talker stream. */
  ghost predicate Refused(e: State, i: nat, b: Binding) {
    || (e.lock.LockedBy? && e.lock.controller != b.controller)
    || (exists j :: 0 <= j < |e.sinks| && j != i && e.sinks[j].binding.talker == b.talker
                                                 && e.sinks[j].binding.talkerUid == b.talkerUid)
  }

  function Messages(s: Sink): (ms: seq<StackMsg>) {
    if s.state in {SettledNoRsv, SettledRsvOk} then [Disconnect(s.stream.id)] else []
  }

  /** A sink starts over with a new binding, as if it had not been bound before. */
  function StartsOver(s: Sink, b: Binding, nextSeq: nat): (s': Sink) {
    Sink(PrbWResp, b, NoStream, NoTalker, 0, nextSeq, false, false, s.available, s.interface, s.log + Messages(s))
  }

  /** The sink is bound as asked. If it was bound to that talker already, nothing else has changed; otherwise it starts
    over, and its probe in flight, if any, is replaced by one for the new talker. */
  ghost predicate BoundTo(e: State, r: State, i: nat, b: Binding)
    requires i < |e.sinks|
  {
    var s := e.sinks[i];
    if s.binding.talker == b.talker && s.binding.talkerUid == b.talkerUid then
      r == e.(sinks := e.sinks[i := s.(binding := b)])
    else
      && r.sinks == e.sinks[i := StartsOver(s, b, e.nextSeq)]
      && r.nextSeq == (e.nextSeq + 1) % 0x1_0000
      && forall c :: c in r.flight <==> c == FirstProbe(b, e.nextSeq, i) || (c in e.flight && c.listenerUid != i)
  }

  /** A BIND is accepted unless another controller holds the entity or another sink has the talker stream. */
  lemma BindOutcome(e: State, i: nat, b: Binding)
    requires Inv(e) && i < |e.sinks| && !Refused(e, i, b) && (b.talker != 0 || b.talkerUid != 0) && Fresh(e)
    ensures BoundTo(e, Next(e, AcmpReceived(i, BindRx(b))), i, b)
  {
    assert EnvOf(e, i, BindRx(b)).taken ==> Refused(e, i, b);
    BoundAt(e, i, b);
    hide SinkAt, BoundTo, Refused, Inv;
  }

  lemma BoundAt(e: State, i: nat, b: Binding)
    requires i < |e.sinks| && Quiet(e.sinks[i]) && Owned(e.flight, e.sinks) && Fresh(e)
    requires Accepted(EnvOf(e, i, BindRx(b))) && !NullTalker(b)
    ensures BoundTo(e, SinkAt(e, i, BindRx(b)), i, b)
  {
    var s := e.sinks[i];
    BoundAnew(s, i, e.flight, b, EnvOf(e, i, BindRx(b)));
    if !SameTalker(s.binding, b) { ProbeReplaced(e.flight, e.sinks, i, FirstProbe(b, e.nextSeq, i)); }
    hide Step, FlightStep, Sends, StartsOver, Quiet, Owned, InFlight, Taken, RemoveFirst;
  }

  lemma BoundAnew(s: Sink, i: nat, flight: seq<Command>, b: Binding, env: Env)
    requires Quiet(s) && Accepted(env) && !NullTalker(b)
    ensures var ev, same := BindRx(b), SameTalker(s.binding, b);
            var queued := [FirstProbe(b, env.nextSeq, i)] + flight;
            && Sends(s, ev, env) == !same
            && Step(s, ev, env) == (if same then s.(binding := b) else StartsOver(s, b, env.nextSeq))
            && FlightStep(flight, i, s, ev, env) ==
               if same then flight else if Probing(s.state) then RemoveFirst(queued, s.probeSeq) else queued
  {
    BindSteps(s, i, flight, BindRx(b), env);
    assert [] + flight == flight;
    assert s.log + [] == s.log;
  }

  /** The new probe joins, and the old one, if there is one, leaves. */
  lemma ProbeReplaced(flight: seq<Command>, sinks: seq<Sink>, i: nat, next: Command)
    requires Owned(flight, sinks) && i < |sinks| && !InFlight(flight, next.sequenceId)
    ensures var queued := [next] + flight;
            var after := if Probing(sinks[i].state) then RemoveFirst(queued, sinks[i].probeSeq) else queued;
            forall c :: c in after <==> c == next || (c in flight && c.listenerUid != i)
  {
    assert ([next] + flight)[1..] == flight;
    if Probing(sinks[i].state) {
      OwnProbeLeaves(flight, sinks, i);
      assert ProbeOf(sinks[i], i) in flight;
      assert RemoveFirst([next] + flight, sinks[i].probeSeq) == [next] + RemoveFirst(flight, sinks[i].probeSeq);
    } else {
      forall c | c in flight ensures c.listenerUid != i {
      }
    }
  }

  /** UNBIND leaves nothing of a binding: no probe, no stream, no talker. */
  lemma UnbindOutcome(e: State, i: nat, controller: nat)
    requires Inv(e) && i < |e.sinks| && (e.lock.LockedBy? ==> e.lock.controller == controller)
    ensures var s, r := e.sinks[i], Next(e, AcmpReceived(i, UnbindRx(controller)));
            && r.sinks == e.sinks[i := Sink(Unbound, NoBinding, NoStream, NoTalker, 0, s.probeSeq, false, false,
                                            s.available, s.interface, s.log + Messages(s))]
            && OnlyOthers(r.flight, i, e.flight)
  {
    var s := e.sinks[i];
    assert s.log + [] == s.log;
    if Probing(s.state) {
      OwnProbeLeaves(e.flight, e.sinks, i);
    } else {
      forall c | c in e.flight ensures c.listenerUid != i {
      }
    }
  }

  /** A BIND and the UNBIND after it leave no trace, but that a sequence id was used. */
  lemma UnbindUndoesBind(e: State, i: nat, b: Binding)
    requires Inv(e) && i < |e.sinks| && !Refused(e, i, b) && (b.talker != 0 || b.talkerUid != 0) && Fresh(e)
    requires e.sinks[i].state == Unbound
    ensures var bound := Next(e, AcmpReceived(i, BindRx(b)));
            Next(bound, AcmpReceived(i, UnbindRx(b.controller))) ==
            e.(sinks := e.sinks[i := e.sinks[i].(probeSeq := e.nextSeq)], nextSeq := (e.nextSeq + 1) % 0x1_0000)
  {
    var bound := Next(e, AcmpReceived(i, BindRx(b)));
    BindOutcome(e, i, b);
    ProbeQueued(e, i, b);
    StepKeeps(e, AcmpReceived(i, BindRx(b)));
    hide Step, FlightStep, Next;
    UnbindOutcome(bound, i, b.controller);
    ProbeDropped(bound, i, b.controller, e.flight);
    hide Inv, Owned, Exclusive, Quiet, Refused, OnlyOthers, InFlight;
    assert bound.sinks[i := Next(bound, AcmpReceived(i, UnbindRx(b.controller))).sinks[i]] ==
           e.sinks[i := Next(bound, AcmpReceived(i, UnbindRx(b.controller))).sinks[i]];
    assert e.sinks[i].log + [] == e.sinks[i].log;
  }

  lemma ProbeQueued(e: State, i: nat, b: Binding)
    requires Inv(e) && i < |e.sinks| && !Refused(e, i, b) && (b.talker != 0 || b.talkerUid != 0)
    requires e.sinks[i].state == Unbound
    ensures var bound := Next(e, AcmpReceived(i, BindRx(b)));
            bound.flight == [FirstProbe(b, e.nextSeq, i)] + e.flight && bound.lock == e.lock && bound.gptp == e.gptp
  {
    assert EnvOf(e, i, BindRx(b)).taken ==> Refused(e, i, b);
    BindSteps(e.sinks[i], i, e.flight, BindRx(b), EnvOf(e, i, BindRx(b)));
  }

  lemma ProbeDropped(bound: State, i: nat, controller: nat, rest: seq<Command>)
    requires i < |bound.sinks| == |bound.gptp| && Probing(bound.sinks[i].state)
    requires bound.lock.LockedBy? ==> bound.lock.controller == controller
    requires bound.flight != [] && bound.flight[0].sequenceId == bound.sinks[i].probeSeq && bound.flight[1..] == rest
    ensures var r := Next(bound, AcmpReceived(i, UnbindRx(controller)));
            r.flight == rest && r.nextSeq == bound.nextSeq && r.lock == bound.lock && r.gptp == bound.gptp
  {
  }

  /** The status of every response, and what a controller reads in it. */
  lemma RepliesAre(e: State, i: nat, ev: Event)
    requires Inv(e) && (ev.BindRx? || ev.UnbindRx? || ev.GetRxState?)
    ensures |Reply(e, i, ev)| == 1
    ensures var rsp := Reply(e, i, ev)[0];
            var sender := if ev.BindRx? then ev.binding.controller else if ev.UnbindRx? then ev.controller else 0;
            && rsp.msgType == (if ev.BindRx? then 7 else if ev.UnbindRx? then 9 else 11)
            && rsp.status == (if i >= |e.sinks| then 1
                              else if !ev.GetRxState? && e.lock.LockedBy? && e.lock.controller != sender then 16
                              else if ev.BindRx? && Refused(e, i, ev.binding) then 6
                              else 0)
            && rsp.connectionCount == (if rsp.status == 0 && (ev.BindRx? || rsp.fastConnect) then 1 else 0)
            && (rsp.fastConnect <==> ev.GetRxState? && i < |e.sinks| && !NullTalker(e.sinks[i].binding))
            && (rsp.registeringFailed <==> ev.GetRxState? && i < |e.sinks| && e.sinks[i].srp == TalkerFailed)
  {
    if i < |e.sinks| && ev.BindRx? {
      assert Taken(e.sinks, i, ev.binding) ==> Refused(e, i, ev.binding);
      if Refused(e, i, ev.binding) && !(e.lock.LockedBy? && e.lock.controller != ev.binding.controller) {
        var j :| 0 <= j < |e.sinks| && j != i && e.sinks[j].binding.talker == ev.binding.talker
                                              && e.sinks[j].binding.talkerUid == ev.binding.talkerUid;
        assert SameTalker(e.sinks[j].binding, ev.binding);
      }
    }
  }

  /** Saved parameters start a sink that was not bound; of a bound one they change the binding alone. */
  lemma SavedOutcome(e: State, i: nat, b: Binding)
    requires Inv(e)
    ensures var r := Next(e, SavedBinding(i, b));
            if i >= |e.sinks| || b.talker == 0 || b.controller == 0 then r == e
            else
              var s := e.sinks[i];
              r == e.(sinks := e.sinks[i := if s.state == Unbound then s.(binding := b, state := PrbWAvail)
                                            else s.(binding := b)])
  {
    if SavedUsable(e, i, b) {
      assert Next(e, SavedBinding(i, b)).sinks == e.sinks[i := Next(e, SavedBinding(i, b)).sinks[i]];
    }
  }

  // ---------------------------------------------------------------- discovery

  /** The difference of two wrapping indices is positive when the first is up to half a round ahead. */
  lemma RegressedExact(before: nat, d: int)
    requires before + d >= 0 && -0x8000_0000 <= d < 0x8000_0000
    ensures Regressed((before + d) % U32, before % U32) <==> d <= 0
  {
    Wraps(before + d, before, U32);
    DivIs(d, U32, if d < 0 then -1 else 0);
  }

  /** The talker is discovered: a sink that waits for it starts the delay before its probe. */
  function Found(s: Sink, available: nat, interface: nat): (s': Sink) {
    var found := s.(discovered := true, discoveryTimer := true, available := available, interface := interface);
    if s.state == PrbWAvail then found.(state := PrbWDelay, acmpStatus := 0) else found
  }

  /** The talker is gone: a sink that is after its answer waits for it to be discovered. */
  function Gone(s: Sink): (s': Sink) {
    var gone := s.(discovered := false, discoveryTimer := false);
    if s.state in {PrbWDelay, PrbWResp, PrbWResp2, PrbWRetry} then gone.(state := PrbWAvail, acmpStatus := 0) else gone
  }

  /** What an ADP message of the talker does to a sink in an interface with the grandmaster and domain `gptp`. */
  function Heard(s: Sink, adp: AdpEvent, gptp: Gptp): (s': Sink)
    requires adp.Available? || adp.Departing?
  {
    match adp
    case Available(available, interface, theirs) =>
      var advance := (available as int - s.available) % U32;
      if !s.discovered then (if theirs == gptp then Found(s, available, interface) else s)
      else if interface != s.interface then s
      else if 0 < advance < 0x8000_0000 then s.(available := available)
      else if theirs == gptp then Found(Gone(s), available, interface)
      else Gone(s)
    case Departing(interface) => if s.discovered && interface == s.interface then Gone(s) else s
  }

  /** An ADP message changes what each sink bound to its sender knows, by what that sink knew before, and no other. */
  lemma DiscoveryOutcome(e: State, i: nat, entityId: nat, adp: AdpEvent)
    requires Inv(e) && i < |e.sinks| && (adp.Available? || adp.Departing?)
    ensures var s := e.sinks[i];
            Next(e, AdpReceived(entityId, adp)).sinks[i] ==
            if s.state != Unbound && s.binding.talker == entityId then Heard(s, adp, e.gptp[i]) else s
  {
    AdpReaches(e, i, entityId, adp, |e.sinks|);
    if e.sinks[i].state != Unbound && e.sinks[i].binding.talker == entityId { DiscoveryIs(e, i, adp); }
  }

  lemma DiscoveryIs(e: State, i: nat, adp: AdpEvent)
    requires Inv(e) && i < |e.sinks| && (adp.Available? || adp.Departing?)
    ensures DiscoveryAt(e, i, adp).sinks[i] == Heard(e.sinks[i], adp, e.gptp[i])
  {
    assert Agrees(e.sinks[i]);
    if adp.Departing? {
      DepartureIs(Put(e, i, e.sinks[i].(discoveryTimer := false)), i);
      hide SinkAt, Gone;
    } else if e.sinks[i].discovered {
      HeardAgain(e, i, adp);
    } else {
      FoundIs(Put(e, i, Found(e.sinks[i].(state := Unbound), adp.available, adp.interface)
                          .(state := e.sinks[i].state, discovered := false)), i);
      hide SinkAt;
    }
  }

  lemma HeardAgain(e: State, i: nat, adp: AdpEvent)
    requires i < |e.sinks| == |e.gptp| && adp.Available? && e.sinks[i].discovered && e.sinks[i].discoveryTimer
    ensures DiscoveryAt(e, i, adp).sinks[i] == Heard(e.sinks[i], adp, e.gptp[i])
  {
    DepartureIs(e, i);
    FoundIs(SinkAt(e, i, TkDeparted), i);
    hide SinkAt;
  }

  lemma DepartureIs(e: State, i: nat)
    requires i < |e.sinks|
    ensures var s, s' := e.sinks[i], SinkAt(e, i, TkDeparted).sinks[i];
            && s' == s.(state := s'.state, acmpStatus := s'.acmpStatus)
            && s'.(discovered := false, discoveryTimer := false) == Gone(s)
  {
  }

  lemma FoundIs(e: State, i: nat)
    requires i < |e.sinks|
    ensures var s := e.sinks[i];
            SinkAt(e, i, TkDiscovered).sinks[i] ==
            if s.state == PrbWAvail then s.(state := PrbWDelay, acmpStatus := 0) else s
  {
  }

  /** The loop over the sinks reaches each of them once, and none knows what the others made of the message. */
  lemma {:induction false} AdpReaches(e: State, i: nat, entityId: nat, adp: AdpEvent, n: nat)
    requires i < |e.sinks| == |e.gptp| && n <= |e.sinks|
    ensures AdpUpTo(e, entityId, adp, n).gptp == e.gptp
    ensures AdpUpTo(e, entityId, adp, n).sinks[i] ==
            if i < n then AdpAt(e, i, entityId, adp).sinks[i] else e.sinks[i]
  {
    hide AdpAt;
    if n > 0 {
      AdpReaches(e, i, entityId, adp, n - 1);
      var before := AdpUpTo(e, entityId, adp, n - 1);
      if n - 1 == i {
        AdpIsLocal(before, e, i, entityId, adp);
      } else {
        AdpElsewhere(before, i, n - 1, entityId, adp);
      }
    }
  }

  lemma AdpIsLocal(e: State, e': State, i: nat, entityId: nat, adp: AdpEvent)
    requires i < |e.sinks| == |e.gptp| && |e'.sinks| == |e.sinks| && e'.sinks[i] == e.sinks[i] && e'.gptp == e.gptp
    ensures AdpAt(e, i, entityId, adp).sinks[i] == AdpAt(e', i, entityId, adp).sinks[i]
  {
    if adp.Available? {
      var s := e.sinks[i].(available := adp.available, interface := adp.interface, discoveryTimer := true);
      FoundIs(Put(e, i, s), i);
      FoundIs(Put(e', i, s), i);
    }
  }

  /** A talker that is not heard of in time is gone, like one that says so. */
  lemma SilenceOutcome(e: State, i: nat)
    requires Inv(e) && i < |e.sinks| && e.sinks[i].discoveryTimer
    ensures Next(e, DiscoveryTimerFires(i)).sinks == e.sinks[i := Gone(e.sinks[i])]
  {
    var e1 := Put(e, i, e.sinks[i].(discoveryTimer := false));
    DepartureIs(e1, i);
    assert Next(e, DiscoveryTimerFires(i)).sinks == e.sinks[i := Next(e, DiscoveryTimerFires(i)).sinks[i]];
  }

  // ---------------------------------------------------------------- reservation

  /** SRP speaks to the first sink with the stream's id. A settled sink hears a registration of its own stream, with the
    same address and VLAN, and the end of one; nothing else reaches it. */
  lemma SrpOutcome(e: State, i: nat, status: SrpStatus, stream: Stream)
    requires Inv(e) && i < |e.sinks| && e.sinks[i].stream.id == stream.id
    requires forall j :: 0 <= j < i ==> e.sinks[j].stream.id != stream.id
    ensures var r := Next(e, SrpReceived(status, stream));
            r.flight == e.flight && r.sinks == e.sinks[i := SrpHeard(e.sinks[i], status, stream)]
  {
    assert FindStream(e.sinks, stream.id, 0) == i;
    SrpIs(e, i, status, stream);
  }

  function SrpHeard(s: Sink, status: SrpStatus, stream: Stream): (s': Sink) {
    if status != NoTalker then
      (if s.state in {SettledNoRsv, SettledRsvOk} && stream == s.stream then s.(state := SettledRsvOk, srp := status)
       else s)
    else if s.state == SettledRsvOk then LooksAgain(s)
    else s
  }

  lemma SrpIs(e: State, i: nat, status: SrpStatus, stream: Stream)
    requires Inv(e) && i < |e.sinks|
    ensures var r := SrpAt(e, i, status, stream);
            r.flight == e.flight && r.nextSeq == e.nextSeq
            && r.sinks == e.sinks[i := SrpHeard(e.sinks[i], status, stream)]
  {
    assert SrpAgrees(e.sinks[i]);
  }

  lemma NoSuchStream(e: State, status: SrpStatus, stream: Stream)
    requires Inv(e) && forall j :: 0 <= j < |e.sinks| ==> e.sinks[j].stream.id != stream.id
    ensures Next(e, SrpReceived(status, stream)) == e
  {
  }

  // ---------------------------------------------------------------- to a reservation, and back to it

  lemma {:induction false} RunJoins(e: State, evs: seq<EntityEvent>, more: seq<EntityEvent>)
    requires Legal(e, evs) && Legal(Run(e, evs), more)
    ensures Legal(e, evs + more) && Run(e, evs + more) == Run(Run(e, evs), more)
    decreases |evs|
  {
    hide Next, Admissible;
    if evs == [] {
      assert evs + more == more;
    } else {
      RunJoins(Next(e, evs[0]), evs[1..], more);
      assert (evs + more)[1..] == evs[1..] + more;
    }
  }

  lemma RunOne(e: State, ev: EntityEvent)
    requires Inv(e) && Occurs(e, ev) && Admissible(e, ev)
    ensures Legal(e, [ev]) && Run(e, [ev]) == Next(e, ev)
  {
    hide Next, Admissible;
    assert [ev][1..] == [];
  }

  /** From any unsettled state with a discovered talker, at most four events lead to a reservation: those that settle
    the sink, and the registration of the stream it is settled on. */
  lemma ReservedInFour(e: State, i: nat, answer: Stream, status: SrpStatus) returns (evs: seq<EntityEvent>)
    requires Inv(e) && i < |e.sinks| && e.sinks[i].discovered && !Settled(e.sinks[i].state)
    requires (!Probing(e.sinks[i].state) ==> Fresh(e)) && status != NoTalker
    requires forall j :: 0 <= j < i ==> e.sinks[j].stream.id != answer.id
    ensures Legal(e, evs) && |evs| <= 4 && Inv(Run(e, evs))
    ensures var s, s' := e.sinks[i], Run(e, evs).sinks[i];
            s'.state == SettledRsvOk && s'.stream == answer && s'.srp == status && s'.binding == s.binding
            && s'.log == s.log + [Connect(answer.id)]
  {
    var first := SettlesInThree(e, i, answer);
    var settled := Run(e, first);
    var ev := SrpReceived(status, answer);
    assert Admissible(settled, ev);
    hide Next, Admissible, Step, FlightStep;
    SrpOutcome(settled, i, status, answer);
    StepKeeps(settled, ev);
    RunOne(settled, ev);
    RunJoins(e, first, [ev]);
    evs := first + [ev];
  }

  /** A settled sink that loses its reservation, or never gets one, is settled again by three events: the loss, the
    delay and the answer to a new probe. The old stream is disconnected before the new one is connected. */
  lemma SettlesAgain(e: State, i: nat, answer: Stream) returns (evs: seq<EntityEvent>)
    requires Inv(e) && i < |e.sinks| && e.sinks[i].discovered && Settled(e.sinks[i].state) && Fresh(e)
    requires forall j :: 0 <= j < i ==> e.sinks[j].stream.id != e.sinks[i].stream.id
    ensures Legal(e, evs) && |evs| == 3 && Inv(Run(e, evs))
    ensures evs[0] == if e.sinks[i].state == SettledNoRsv then TimerFires(i, TmrNoTk)
                      else SrpReceived(NoTalker, e.sinks[i].stream)
    ensures var s, s' := e.sinks[i], Run(e, evs).sinks[i];
            s'.state == SettledNoRsv && s'.stream == answer && s'.binding == s.binding
            && s'.log == s.log + [Disconnect(s.stream.id), Connect(answer.id)]
  {
    var s := e.sinks[i];
    var ev := if s.state == SettledNoRsv then TimerFires(i, TmrNoTk) else SrpReceived(NoTalker, s.stream);
    LosesStream(e, i, ev);
    hide Next, Step, FlightStep;
    assert Admissible(e, ev);
    StepKeeps(e, ev);
    var lost := Next(e, ev);
    var rest := SettlesInThree(lost, i, answer);
    RunOne(e, ev);
    RunJoins(e, [ev], rest);
    evs := [ev] + rest;
  }

  lemma LosesStream(e: State, i: nat, ev: EntityEvent)
    requires Inv(e) && i < |e.sinks| && Settled(e.sinks[i].state)
    requires forall j :: 0 <= j < i ==> e.sinks[j].stream.id != e.sinks[i].stream.id
    requires ev == if e.sinks[i].state == SettledNoRsv then TimerFires(i, TmrNoTk)
                   else SrpReceived(NoTalker, e.sinks[i].stream)
    ensures Occurs(e, ev) && Next(e, ev).sinks == e.sinks[i := LooksAgain(e.sinks[i])]
    ensures Next(e, ev).flight == e.flight && Next(e, ev).nextSeq == e.nextSeq
  {
    if ev.TimerFires? {
      TimersMove(e, i, TmrNoTk);
    } else {
      SrpOutcome(e, i, NoTalker, e.sinks[i].stream);
    }
  }
}
