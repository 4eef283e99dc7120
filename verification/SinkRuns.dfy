/**
 Every run of the Milan listener keeps the invariant, and which events would break it.
 */
module SinkRuns {
  import opened InflightPool
  import opened AcmpCommands
  import opened SinkMachine
  import opened SinkInvariants

  // ---------------------------------------------------------------- admissible events

  ghost predicate Fresh(e: State) {
    !InFlight(e.flight, e.nextSeq)
  }

  /**
   The environment assumptions of one sink event: an accepted BIND names a talker, the next sequence id is not
   still in flight, and a probe response does not carry the sequence id of another sink's probe.
   */
  ghost predicate Safe(e: State, i: nat, ev: Event)
    requires i < |e.sinks|
  {
    var s, env := e.sinks[i], EnvOf(e, i, ev);
    && (ev.BindRx? && Accepted(env) ==> !NullTalker(ev.binding))
    && (Sends(s, ev, env) ==> Fresh(e))
    && (ev.ProbeTxResp? && Probing(s.state) ==>
          forall c :: c in e.flight && c.sequenceId == ev.sequenceId ==> c.listenerUid == i)
  }

  ghost predicate Admissible(e: State, ev: EntityEvent) {
    match ev
    case TimerFires(i, timer) => timer.TmrDelay? ==> Fresh(e)
    case AcmpReceived(i, received) => i < |e.sinks| ==> Safe(e, i, received)
    case SavedBinding(i, b) =>
      SavedUsable(e, i, b) ==>
        && !Taken(e.sinks, i, b)
        && (Probing(e.sinks[i].state) ==> SameTalker(e.sinks[i].binding, b))
    case _ => true
  }

  /** The part of the invariant that also holds while discovery or SRP is in the middle of a call. */
  ghost predicate Core(e: State) {
    && |e.gptp| == |e.sinks|
    && e.nextSeq < SEQUENCE_IDS
    && (forall j :: 0 <= j < |e.sinks| ==> Local(e.sinks[j]))
    && Exclusive(e.sinks)
    && Owned(e.flight, e.sinks)
  }

  // ---------------------------------------------------------------- one step of one sink

  lemma ReleasedOk(s: Sink)
    requires LogOk(s)
    ensures Alternates(Released(s)) && !Open(Released(s))
  {
  }

  lemma ConnectedOk(s: Sink, id: nat)
    requires LogOk(s) && !Settled(s.state)
    ensures Alternates(s.log + [Connect(id)]) && Open(s.log + [Connect(id)])
  {
  }

  lemma LocalStep(s: Sink, ev: Event, env: Env)
    requires Local(s)
    requires ev.BindRx? && Accepted(env) ==> !NullTalker(ev.binding)
    requires ev.SavedBindingParams? ==> s.state != Unbound
    ensures Local(Step(s, ev, env))
  {
    ReleasedOk(s);
    if ev.ProbeTxResp? && Probing(s.state) {
      ConnectedOk(s, ev.stream.id);
    }
  }

  lemma AgreesStep(s: Sink, ev: Event, env: Env)
    requires Agrees(s) && !ev.TkDiscovered? && !ev.TkDeparted?
    ensures Agrees(Step(s, ev, env))
  {
  }

  lemma SrpAgreesStep(s: Sink, ev: Event, env: Env)
    requires SrpAgrees(s) && !ev.TkRegistered? && !ev.TkUnregistered?
    ensures SrpAgrees(Step(s, ev, env))
  {
  }

  lemma ExclusiveStep(sinks: seq<Sink>, i: nat, s: Sink)
    requires Exclusive(sinks) && i < |sinks|
    requires s.state != Unbound ==>
               (SameTalker(s.binding, sinks[i].binding) && sinks[i].state != Unbound) || !Taken(sinks, i, s.binding)
    ensures Exclusive(sinks[i := s])
  {
    var now := sinks[i := s];
    forall j, k | 0 <= j < k < |now| && now[j].state != Unbound && now[k].state != Unbound
      ensures !SameTalker(now[j].binding, now[k].binding)
    {
    }
  }

  // ---------------------------------------------------------------- one step of the entity

  lemma OwnedAt(e: State, i: nat, ev: Event)
    requires Core(e) && i < |e.sinks| && Safe(e, i, ev) && !ev.TmrNoResp? && !ev.SavedBindingParams?
    ensures Owned(SinkAt(e, i, ev).flight, SinkAt(e, i, ev).sinks)
  {
    hide Exclusive;
    if Cancels(e.sinks[i], ev, EnvOf(e, i, ev)) {
      OwnedAtCancel(e, i, ev);
    } else if Sends(e.sinks[i], ev, EnvOf(e, i, ev)) {
      OwnedAfterSend(e.flight, e.sinks, i, Step(e.sinks[i], ev, EnvOf(e, i, ev)));
    } else {
      OwnedFrame(e.flight, e.sinks, i, Step(e.sinks[i], ev, EnvOf(e, i, ev)));
    }
  }

  lemma OwnedAtCancel(e: State, i: nat, ev: Event)
    requires Core(e) && i < |e.sinks| && Safe(e, i, ev) && Cancels(e.sinks[i], ev, EnvOf(e, i, ev))
    ensures Owned(SinkAt(e, i, ev).flight, SinkAt(e, i, ev).sinks)
  {
    hide Exclusive;
    var s, env := e.sinks[i], EnvOf(e, i, ev);
    if Sends(s, ev, env) {
      OwnedAfterRebind(e.flight, e.sinks, i, Step(s, ev, env));
    } else if ev.ProbeTxResp? && !env.inFlight {
      StaleResponseIgnored(e, i, ev);
    } else {
      OwnCancelled(e, i, ev);
      hide Step, FlightStep;
      OwnedAfterCancel(e.flight, e.sinks, i, Step(s, ev, env));
    }
  }

  /** An answer, an UNBIND or a departure ends the sink's own probe and no other. */
  lemma OwnCancelled(e: State, i: nat, ev: Event)
    requires Core(e) && i < |e.sinks| && Safe(e, i, ev) && Cancels(e.sinks[i], ev, EnvOf(e, i, ev))
    requires !Sends(e.sinks[i], ev, EnvOf(e, i, ev)) && (ev.ProbeTxResp? ==> EnvOf(e, i, ev).inFlight)
    ensures SinkAt(e, i, ev).flight == RemoveFirst(e.flight, e.sinks[i].probeSeq)
    ensures !Probing(SinkAt(e, i, ev).sinks[i].state)
  {
    if ev.ProbeTxResp? {
      var c :| c in e.flight && c.sequenceId == ev.sequenceId;
      assert ev.sequenceId == e.sinks[i].probeSeq;
    }
  }

  /** A re-BIND queues the new probe and then cancels the old one: the sink again owns exactly one. */
  lemma OwnedAfterRebind(flight: seq<Command>, sinks: seq<Sink>, i: nat, s': Sink)
    requires Owned(flight, sinks) && i < |sinks| && Probing(sinks[i].state)
    requires Probing(s'.state) && !InFlight(flight, s'.probeSeq)
    ensures Owned(RemoveFirst([ProbeOf(s', i)] + flight, sinks[i].probeSeq), sinks[i := s'])
  {
    var s := sinks[i];
    var idle := s.(state := PrbWRetry);
    var rest := RemoveFirst(flight, s.probeSeq);
    OwnedAfterCancel(flight, sinks, i, idle);
    RemoveFirstIn(flight, s.probeSeq);
    OwnedAfterSend(rest, sinks[i := idle], i, s');
    assert sinks[i := idle][i := s'] == sinks[i := s'];
    assert ProbeOf(s, i) in flight;
    assert ([ProbeOf(s', i)] + flight)[1..] == flight;
  }

  lemma {:induction false} RemoveFirstIn(cs: seq<Command>, sequenceId: nat)
    ensures forall c :: c in RemoveFirst(cs, sequenceId) ==> c in cs
  {
    if cs != [] && cs[0].sequenceId != sequenceId {
      RemoveFirstIn(cs[1..], sequenceId);
    }
  }

  lemma CoreAt(e: State, i: nat, ev: Event)
    requires Core(e) && i < |e.sinks| && Safe(e, i, ev) && !ev.TmrNoResp? && !ev.SavedBindingParams?
    ensures Core(SinkAt(e, i, ev))
  {
    OwnedAt(e, i, ev);
    LocalStep(e.sinks[i], ev, EnvOf(e, i, ev));
    ExclusiveAt(e, i, ev);
    hide Step, FlightStep, Exclusive, Owned, Local;
    CoreWith(e, SinkAt(e, i, ev), i);
  }

  lemma ExclusiveAt(e: State, i: nat, ev: Event)
    requires Core(e) && i < |e.sinks| && !ev.SavedBindingParams?
    ensures Exclusive(SinkAt(e, i, ev).sinks)
  {
    ExclusiveStep(e.sinks, i, Step(e.sinks[i], ev, EnvOf(e, i, ev)));
  }

  lemma CoreWith(e: State, r: State, i: nat)
    requires Core(e) && i < |e.sinks| && |r.sinks| == |e.sinks| && r.sinks == e.sinks[i := r.sinks[i]]
    requires r.gptp == e.gptp && r.nextSeq < SEQUENCE_IDS
    requires Local(r.sinks[i]) && Exclusive(r.sinks) && Owned(r.flight, r.sinks)
    ensures Core(r)
  {
  }

  /** Writing what discovery and SRP remember touches nothing of the core. */
  lemma CorePut(e: State, i: nat, s: Sink)
    requires Core(e) && i < |e.sinks|
    requires s == e.sinks[i].(srp := s.srp, discovered := s.discovered, discoveryTimer := s.discoveryTimer,
                              available := s.available, interface := s.interface)
    ensures Core(Put(e, i, s))
  {
    OwnedFrame(e.flight, e.sinks, i, s);
    ExclusiveStep(e.sinks, i, s);
    assert Local(s) by {
      assert Local(e.sinks[i]);
      assert LogOk(s);
    }
  }

  ghost predicate OthersQuiet(sinks: seq<Sink>, i: nat) {
    forall j :: 0 <= j < |sinks| && j != i ==> Quiet(sinks[j])
  }

  lemma InvAt(e: State, i: nat, ev: Event)
    requires Inv(e) && i < |e.sinks| && Safe(e, i, ev)
    requires Received(ev) || ev.TmrRetry? || ev.TmrDelay? || ev.TmrNoTk?
    ensures Inv(SinkAt(e, i, ev))
  {
    CoreAt(e, i, ev);
    AgreesStep(e.sinks[i], ev, EnvOf(e, i, ev));
    SrpAgreesStep(e.sinks[i], ev, EnvOf(e, i, ev));
  }

  // ---------------------------------------------------------------- discovery and SRP

  /** What discovery may rely on: everything at rest, except that an expired timer has already stopped. */
  ghost predicate DiscoveryReady(e: State, i: nat, adp: AdpEvent)
    requires i < |e.sinks|
  {
    var s := e.sinks[i];
    && Core(e) && OthersQuiet(e.sinks, i) && SrpAgrees(s)
    && (if adp.NoAdp? then s.discovered && !s.discoveryTimer else Agrees(s))
    && s.state != Unbound
  }

  /** From the core to the invariant: only sink `i` moved, and it is at rest again. */
  lemma AtRestAgain(e: State, i: nat, r: State)
    requires i < |e.sinks| == |r.sinks| && OthersQuiet(e.sinks, i)
    requires forall j :: 0 <= j < |e.sinks| && j != i ==> r.sinks[j] == e.sinks[j]
    requires Core(r) && Agrees(r.sinks[i]) && SrpAgrees(r.sinks[i])
    ensures Inv(r)
  {
  }

  /** A departure: the sink machine runs first, then discovery forgets the talker. */
  lemma DepartedInv(e: State, i: nat, s: Sink, r: State)
    requires i < |e.sinks| && Core(e) && OthersQuiet(e.sinks, i) && SrpAgrees(e.sinks[i])
    requires s == e.sinks[i].(discoveryTimer := s.discoveryTimer) && s.state != Unbound
    requires
      var e1 := SinkAt(Put(e, i, s), i, TkDeparted);
      r == Put(e1, i, e1.sinks[i].(discovered := false, discoveryTimer := false))
    ensures Inv(r)
  {
    CorePut(e, i, s);
    CoreAt(Put(e, i, s), i, TkDeparted);
    var e1 := SinkAt(Put(e, i, s), i, TkDeparted);
    CorePut(e1, i, e1.sinks[i].(discovered := false, discoveryTimer := false));
    AtRestAgain(e, i, r);
  }

  /** A discovery: again the sink machine runs first. */
  lemma DiscoveredInv(e: State, i: nat, s: Sink, available: nat, r: State)
    requires i < |e.sinks| && Core(e) && OthersQuiet(e.sinks, i) && SrpAgrees(e.sinks[i])
    requires s == e.sinks[i].(available := s.available, interface := s.interface, discoveryTimer := s.discoveryTimer)
    requires s.state != Unbound
    requires
      var e1 := SinkAt(Put(e, i, s), i, TkDiscovered);
      r == Put(e1, i, e1.sinks[i].(available := available, discovered := true, discoveryTimer := true))
    ensures Inv(r)
  {
    CorePut(e, i, s);
    CoreAt(Put(e, i, s), i, TkDiscovered);
    var e1 := SinkAt(Put(e, i, s), i, TkDiscovered);
    CorePut(e1, i, e1.sinks[i].(available := available, discovered := true, discoveryTimer := true));
    AtRestAgain(e, i, r);
  }

  /** Discovery restores the agreement it breaks while it calls the sink machine. */
  lemma DiscoveryInv(e: State, i: nat, adp: AdpEvent)
    requires i < |e.sinks| && DiscoveryReady(e, i, adp)
    ensures Inv(DiscoveryAt(e, i, adp))
  {
    var s := e.sinks[i];
    var r := DiscoveryAt(e, i, adp);
    if !s.discovered {
      if adp.Available? && adp.gptp == e.gptp[i] {
        var s0 := s.(available := adp.available, interface := adp.interface, discoveryTimer := true);
        DiscoveredInv(e, i, s0, adp.available, r);
      } else {
        AtRestAgain(e, i, r);
      }
    } else if adp.NoAdp? {
      assert Put(e, i, s) == e;
      DepartedInv(e, i, s, r);
    } else if adp.interface != s.interface {
      AtRestAgain(e, i, r);
    } else if adp.Departing? {
      DepartedInv(e, i, s.(discoveryTimer := false), r);
    } else if Regressed(adp.available, s.available) {
      RegressedInv(e, i, adp);
    } else {
      CorePut(e, i, r.sinks[i]);
      AtRestAgain(e, i, r);
    }
  }

  /** A talker whose available_index went backwards departs and, if its gPTP still matches, is discovered anew. */
  lemma RegressedInv(e: State, i: nat, adp: AdpEvent)
    requires i < |e.sinks| && DiscoveryReady(e, i, adp) && adp.Available?
    requires e.sinks[i].discovered && adp.interface == e.sinks[i].interface
    requires Regressed(adp.available, e.sinks[i].available)
    ensures Inv(DiscoveryAt(e, i, adp))
  {
    var s := e.sinks[i];
    assert Put(e, i, s) == e;
    var e1 := SinkAt(e, i, TkDeparted);
    if adp.gptp == e.gptp[i] {
      CoreAt(e, i, TkDeparted);
      assert Put(e1, i, e1.sinks[i]) == e1;
      DiscoveredInv(e1, i, e1.sinks[i], adp.available, DiscoveryAt(e, i, adp));
    } else {
      DepartedInv(e, i, s, DiscoveryAt(e, i, adp));
    }
  }

  /** SRP records what it heard and then tells the sink machine. */
  lemma SrpMovedInv(e: State, i: nat, s: Sink, ev: Event)
    requires Inv(e) && i < |e.sinks| && s == e.sinks[i].(srp := s.srp)
    requires (ev.TkRegistered? && s.state == SettledNoRsv && s.srp != NoTalker)
          || (ev.TkUnregistered? && s.state == SettledRsvOk)
    ensures Inv(SinkAt(Put(e, i, s), i, ev))
  {
    CorePut(e, i, s);
    CoreAt(Put(e, i, s), i, ev);
    AtRestAgain(e, i, SinkAt(Put(e, i, s), i, ev));
  }

  lemma SrpInv(e: State, i: nat, status: SrpStatus, stream: Stream)
    requires Inv(e) && i < |e.sinks|
    ensures Inv(SrpAt(e, i, status, stream))
  {
    var s := e.sinks[i];
    var s1 := s.(srp := status);
    if Settled(s.state) && !(status != NoTalker && stream != s.stream) {
      if s.state == SettledNoRsv && status != NoTalker {
        SrpMovedInv(e, i, s1, TkRegistered);
      } else if s.state == SettledRsvOk && status == NoTalker {
        SrpMovedInv(e, i, s1, TkUnregistered);
      } else {
        CorePut(e, i, s1);
        AtRestAgain(e, i, Put(e, i, s1));
      }
    }
  }

  lemma AdpAtInv(e: State, i: nat, entityId: nat, adp: AdpEvent)
    requires Inv(e) && i < |e.sinks| && (adp.Available? || adp.Departing?)
    ensures Inv(AdpAt(e, i, entityId, adp))
  {
    if e.sinks[i].state != Unbound && e.sinks[i].binding.talker == entityId {
      DiscoveryInv(e, i, adp);
    }
  }

  lemma AdpUpToNone(e: State, entityId: nat, adp: AdpEvent)
    requires |e.sinks| == |e.gptp|
    ensures AdpUpTo(e, entityId, adp, 0) == e
  {
  }

  lemma {:induction false} AdpInv(e: State, entityId: nat, adp: AdpEvent, n: nat)
    requires Inv(e) && n <= |e.sinks| && (adp.Available? || adp.Departing?)
    ensures Inv(AdpUpTo(e, entityId, adp, n))
  {
    hide AdpAt;
    if n > 0 {
      AdpInv(e, entityId, adp, n - 1);
      var before := AdpUpTo(e, entityId, adp, n - 1);
      AdpAtInv(before, n - 1, entityId, adp);
      assert AdpUpTo(e, entityId, adp, n) == AdpAt(before, n - 1, entityId, adp);
    }
  }

  lemma NoAdpInv(e: State, i: nat)
    requires Inv(e) && i < |e.sinks| && e.sinks[i].discoveryTimer
    ensures Inv(Next(e, DiscoveryTimerFires(i)))
  {
    var s := e.sinks[i].(discoveryTimer := false);
    CorePut(e, i, s);
    DiscoveryInv(Put(e, i, s), i, NoAdp);
  }

  /** A BIND, step by step: the new probe is queued, then the old one is cancelled, then the sink starts over. */
  lemma BindSteps(s: Sink, i: nat, flight: seq<Command>, ev: Event, env: Env)
    requires ev.BindRx? && !env.locked
    ensures var b, sends := ev.binding, !env.taken && !SameTalker(s.binding, ev.binding);
            var queued := (if sends then
                           [Command(PROBE_TX_COMMAND, env.nextSeq, i, b.talker, b.talkerUid, false)] else []) + flight;
            var bound := if env.taken then s else Rebound(s, b, sends, env.nextSeq);
            && Sends(s, ev, env) == sends
            && (if Restarts(s, ev, env) then
                  && Step(s, ev, env) == Forgot(Left(bound)).(state := PrbWResp)
                  && FlightStep(flight, i, s, ev, env) ==
                     if Probing(s.state) then RemoveFirst(queued, s.probeSeq) else queued
                else Step(s, ev, env) == bound && FlightStep(flight, i, s, ev, env) == queued)
  {
    assert [] + flight == flight;
  }

  lemma NoResponseSendsNothing(e: State, i: nat)
    requires i < |e.sinks|
    ensures SinkAt(e, i, TmrNoResp).flight == e.flight
  {
  }

  /** A timeout: RESP goes to RESP2 with a retried command, RESP2 to RETRY without one. */
  lemma NoResponseInv(e: State, p: nat)
    requires Inv(e) && p < |e.flight|
    ensures Inv(NoResponseAt(e, p))
  {
    var c := e.flight[p];
    var i := c.listenerUid;
    var s := e.sinks[i];
    var s' := Step(s, TmrNoResp, EnvOf(e, i, TmrNoResp));
    LocalStep(s, TmrNoResp, EnvOf(e, i, TmrNoResp));
    AgreesStep(s, TmrNoResp, EnvOf(e, i, TmrNoResp));
    SrpAgreesStep(s, TmrNoResp, EnvOf(e, i, TmrNoResp));
    ExclusiveStep(e.sinks, i, s');
    if c.retried {
      OwnedWithout(e.flight, e.sinks, p, i, s');
    } else {
      OwnedAfterRetry(e.flight, e.sinks, p, i, s');
    }
  }

  lemma SavedInv(e: State, i: nat, b: Binding)
    requires Inv(e) && SavedUsable(e, i, b) && Admissible(e, SavedBinding(i, b))
    ensures Inv(Next(e, SavedBinding(i, b)))
  {
    var s := e.sinks[i];
    var e1 := Put(e, i, s.(binding := b));
    var s' := Step(s.(binding := b), SavedBindingParams, EnvOf(e1, i, SavedBindingParams));
    assert e1.sinks[i := s'] == e.sinks[i := s'];
    assert Local(s') by {
      assert Local(s);
      assert LogOk(s');
    }
    ExclusiveStep(e.sinks, i, s');
    OwnedFrame(e.flight, e.sinks, i, s');
  }

  // ---------------------------------------------------------------- the one-step theorem

  lemma StepKeeps(e: State, ev: EntityEvent)
    requires Inv(e) && Occurs(e, ev) && Admissible(e, ev)
    ensures Inv(Next(e, ev))
  {
    match ev
    case TimerFires(i, timer) => InvAt(e, i, timer);
    case DiscoveryTimerFires(i) => NoAdpInv(e, i);
    case NoResponse(p) => NoResponseInv(e, p);
    case AcmpReceived(i, received) => if i < |e.sinks| { InvAt(e, i, received); }
    case AdpReceived(entityId, adp) => AdpInv(e, entityId, adp, |e.sinks|);
    case SrpReceived(status, stream) =>
      var i := FindStream(e.sinks, stream.id, 0);
      if i < |e.sinks| { SrpInv(e, i, status, stream); }
    case SavedBinding(i, b) => if SavedUsable(e, i, b) { SavedInv(e, i, b); }
    case Elsewhere(_, _) =>
  }

  /** A response with another sink's sequence id cancels that sink's probe and leaves its own one orphaned. */
  lemma StolenProbeBreaks(e: State, i: nat, ev: Event, c: Command)
    requires Inv(e) && i < |e.sinks| && ev.ProbeTxResp? && Probing(e.sinks[i].state)
    requires c in e.flight && c.sequenceId == ev.sequenceId && c.listenerUid != i
    ensures !Inv(SinkAt(e, i, ev))
  {
    var own := ProbeOf(e.sinks[i], i);
    var r := SinkAt(e, i, ev);
    assert own in e.flight;
    RemoveFirstKeeps(e.flight, ev.sequenceId, own);
    var p :| 0 <= p < |r.flight| && r.flight[p] == own;
    assert !Probing(r.sinks[r.flight[p].listenerUid].state);
  }

  lemma {:induction false} RemoveFirstKeeps(cs: seq<Command>, sequenceId: nat, c: Command)
    requires c in cs && c.sequenceId != sequenceId
    ensures c in RemoveFirst(cs, sequenceId)
  {
    if cs[0].sequenceId != sequenceId && c != cs[0] {
      RemoveFirstKeeps(cs[1..], sequenceId, c);
    }
  }

  /** Two commands in flight with one sequence id are never owned. */
  lemma ClashBreaks(flight: seq<Command>, sinks: seq<Sink>, c: Command, d: Command)
    requires c in flight && d in flight && c != d && c.sequenceId == d.sequenceId
    ensures !Owned(flight, sinks)
  {
    var p :| 0 <= p < |flight| && flight[p] == c;
    var q :| 0 <= q < |flight| && flight[q] == d;
    assert flight[if p < q then p else q].sequenceId == flight[if p < q then q else p].sequenceId;
  }

  /** A probe whose sequence id is still in flight breaks the ownership, whichever sink sent the older one. */
  lemma StaleSequenceBreaks(e: State, i: nat, ev: Event)
    requires Inv(e) && i < |e.sinks| && Sends(e.sinks[i], ev, EnvOf(e, i, ev)) && !Fresh(e)
    ensures !Inv(SinkAt(e, i, ev))
  {
    var s, env := e.sinks[i], EnvOf(e, i, ev);
    var r := SinkAt(e, i, ev);
    if Cancels(s, ev, env) {
      StaleRebindBreaks(e.flight, e.sinks, i, r.sinks[i]);
    } else {
      var c :| c in e.flight && c.sequenceId == e.nextSeq;
      assert r.flight == [ProbeOf(r.sinks[i], i)] + e.flight;
      assert r.flight[0] == ProbeOf(r.sinks[i], i);
      ClashBreaks(r.flight, r.sinks, c, ProbeOf(r.sinks[i], i));
    }
  }

  lemma StaleRebindBreaks(flight: seq<Command>, sinks: seq<Sink>, i: nat, s': Sink)
    requires Owned(flight, sinks) && i < |sinks| && Probing(sinks[i].state)
    requires s'.state == PrbWResp && !SameTalker(s'.binding, sinks[i].binding) && InFlight(flight, s'.probeSeq)
    ensures !Owned(RemoveFirst([ProbeOf(s', i)] + flight, sinks[i].probeSeq), sinks[i := s'])
  {
    var own, next := ProbeOf(sinks[i], i), ProbeOf(s', i);
    var after := RemoveFirst([next] + flight, sinks[i].probeSeq);
    assert ([next] + flight)[1..] == flight;
    assert own in flight;
    if own.sequenceId == s'.probeSeq {
      assert after == flight;
      var p :| 0 <= p < |flight| && flight[p] == own;
      assert after[p] != next;
    } else {
      var c :| c in flight && c.sequenceId == s'.probeSeq;
      RemoveFirstKeeps(flight, sinks[i].probeSeq, c);
      assert after == [next] + RemoveFirst(flight, sinks[i].probeSeq);
      assert after[0] == next;
      var p :| 0 <= p < |flight| && flight[p] == c;
      assert c.listenerUid != i;
      ClashBreaks(after, sinks[i := s'], c, next);
    }
  }

  lemma UnsafeBreaks(e: State, i: nat, ev: Event)
    requires Inv(e) && i < |e.sinks| && !Safe(e, i, ev)
    ensures !Inv(SinkAt(e, i, ev))
  {
    var s, env := e.sinks[i], EnvOf(e, i, ev);
    if Sends(s, ev, env) && !Fresh(e) {
      StaleSequenceBreaks(e, i, ev);
    } else if ev.ProbeTxResp? {
      var c :| c in e.flight && c.sequenceId == ev.sequenceId && c.listenerUid != i;
      StolenProbeBreaks(e, i, ev, c);
    } else {
      assert !Local(SinkAt(e, i, ev).sinks[i]);
    }
  }

  lemma SavedBreaks(e: State, i: nat, b: Binding)
    requires Inv(e) && SavedUsable(e, i, b) && !Admissible(e, SavedBinding(i, b))
    ensures !Inv(Next(e, SavedBinding(i, b)))
  {
    if Taken(e.sinks, i, b) {
      DuplicateBreaks(e, i, b);
    } else {
      RedirectBreaks(e, i, b);
    }
  }

  lemma SavedSink(e: State, i: nat, b: Binding)
    requires SavedUsable(e, i, b) && |e.sinks| == |e.gptp|
    ensures var s, r := e.sinks[i], Next(e, SavedBinding(i, b));
            && r.flight == e.flight && r.sinks == e.sinks[i := r.sinks[i]]
            && r.sinks[i].binding == b && r.sinks[i].state != Unbound && r.sinks[i].probeSeq == s.probeSeq
            && (s.state != Unbound ==> r.sinks[i].state == s.state)
  {
  }

  /** Two bound sinks would have the same talker. */
  lemma DuplicateBreaks(e: State, i: nat, b: Binding)
    requires Inv(e) && SavedUsable(e, i, b) && Taken(e.sinks, i, b)
    ensures !Inv(Next(e, SavedBinding(i, b)))
  {
    SavedSink(e, i, b);
    var r := Next(e, SavedBinding(i, b));
    hide Next;
    var j :| 0 <= j < |e.sinks| && j != i && SameTalker(e.sinks[j].binding, b);
    assert r.sinks[j] == e.sinks[j] && e.sinks[j].state != Unbound;
    assert SameTalker(r.sinks[if i < j then i else j].binding, r.sinks[if i < j then j else i].binding);
    assert !Exclusive(r.sinks);
  }

  /** The probe in flight would name another talker than the sink. */
  lemma RedirectBreaks(e: State, i: nat, b: Binding)
    requires Inv(e) && SavedUsable(e, i, b) && Probing(e.sinks[i].state) && !SameTalker(e.sinks[i].binding, b)
    ensures !Inv(Next(e, SavedBinding(i, b)))
  {
    SavedSink(e, i, b);
    var s, r := e.sinks[i], Next(e, SavedBinding(i, b));
    hide Next;
    var p :| 0 <= p < |e.flight| && e.flight[p] == ProbeOf(s, i);
    assert r.flight[p] != ProbeOf(r.sinks[i], i);
    assert !Owned(r.flight, r.sinks);
  }

  /**
   The one-step theorem.  An event that can happen keeps the invariant if and only if it is admissible: an
   accepted BIND names a talker, a probe takes a sequence id that is not in flight, a probe response does not
   carry another sink's sequence id, and saved parameters neither duplicate a binding nor redirect a probe.
   */
  lemma StepExact(e: State, ev: EntityEvent)
    requires Inv(e) && Occurs(e, ev)
    ensures Inv(Next(e, ev)) <==> Admissible(e, ev)
  {
    if Admissible(e, ev) {
      StepKeeps(e, ev);
    } else if ev.SavedBinding? {
      SavedBreaks(e, ev.i, ev.binding);
    } else if ev.AcmpReceived? {
      UnsafeBreaks(e, ev.i, ev.ev);
    } else {
      StaleSequenceBreaks(e, ev.i, ev.timer);
    }
  }

  // ---------------------------------------------------------------- runs

  ghost function Run(e: State, evs: seq<EntityEvent>): (r: State)
    requires Legal(e, evs)
    ensures |r.sinks| == |e.sinks|
    decreases |evs|
  {
    if evs == [] then e else Run(Next(e, evs[0]), evs[1..])
  }

  ghost predicate Legal(e: State, evs: seq<EntityEvent>)
    decreases |evs|
  {
    evs != [] ==>
      |e.sinks| == |e.gptp| && Occurs(e, evs[0]) && Admissible(e, evs[0]) && Legal(Next(e, evs[0]), evs[1..])
  }

  /** Every state of every run of admissible events satisfies the invariant, whatever the number of sinks. */
  lemma {:induction false} RunKeeps(e: State, evs: seq<EntityEvent>)
    requires Inv(e) && Legal(e, evs)
    ensures Inv(Run(e, evs))
    decreases |evs|
  {
    if evs != [] {
      StepKeeps(e, evs[0]);
      RunKeeps(Next(e, evs[0]), evs[1..]);
    }
  }

  // ---------------------------------------------------------------- progress

  /** A bound sink that is not settled is never dead. */
  lemma NeverDead(e: State, i: nat)
    requires Inv(e) && i < |e.sinks| && e.sinks[i].state != Unbound && !Settled(e.sinks[i].state)
    ensures
      var r := ResourcesOf(e.sinks[i].state);
      || r.delayTimer || r.retryTimer
      || (exists c :: c in e.flight && c.listenerUid == i)
      || (e.sinks[i].state == PrbWAvail && !e.sinks[i].discovered)
  {
    if Probing(e.sinks[i].state) {
      assert ProbeOf(e.sinks[i], i).listenerUid == i;
    }
  }

  /** How many events a sink is away from being settled when its talker answers. */
  function Distance(state: SinkState): nat {
    match state
    case PrbWAvail => 4
    case PrbWRetry => 3
    case PrbWDelay => 2
    case PrbWResp | PrbWResp2 => 1
    case Unbound | SettledNoRsv | SettledRsvOk => 0
  }

  /** The event that a sink with a discovered talker waits for, if its probe is answered with SUCCESS. */
  function Awaited(s: Sink, i: nat, answer: Stream): EntityEvent {
    match s.state
    case PrbWRetry => TimerFires(i, TmrRetry)
    case PrbWDelay => TimerFires(i, TmrDelay)
    case _ => AcmpReceived(i, ProbeTxResp(s.probeSeq, STAT_SUCCESS, answer))
  }

  lemma AwaitedComesCloser(e: State, i: nat, answer: Stream)
    requires Inv(e) && i < |e.sinks| && e.sinks[i].discovered && !Settled(e.sinks[i].state)
    requires e.sinks[i].state == PrbWDelay ==> Fresh(e)
    ensures
      var ev := Awaited(e.sinks[i], i, answer);
      && Occurs(e, ev) && Admissible(e, ev)
      && Distance(Next(e, ev).sinks[i].state) == Distance(e.sinks[i].state) - 1
      && Next(e, ev).sinks[i].discovered
      && Next(e, ev).sinks[i].binding == e.sinks[i].binding
      && Next(e, ev).sinks[i].log ==
         e.sinks[i].log + (if Distance(e.sinks[i].state) == 1 then [Connect(answer.id)] else [])
      && (forall j :: 0 <= j < |e.sinks| && j != i ==> Next(e, ev).sinks[j] == e.sinks[j])
  {
    var s := e.sinks[i];
    assert s.log + [] == s.log;
    if Probing(s.state) {
      assert ProbeOf(s, i) in e.flight;
      forall c | c in e.flight && c.sequenceId == s.probeSeq ensures c.listenerUid == i {
        if c != ProbeOf(s, i) {
          ClashBreaks(e.flight, e.sinks, c, ProbeOf(s, i));
        }
      }
    }
  }

  /** What the awaited event leaves for the next one: nothing new is in flight unless the probe itself is. */
  lemma ProbedOnce(e: State, i: nat, answer: Stream)
    requires i < |e.sinks| == |e.gptp| && e.sinks[i].discovered && !Settled(e.sinks[i].state)
    requires !Probing(e.sinks[i].state) ==> Fresh(e)
    requires Occurs(e, Awaited(e.sinks[i], i, answer))
    ensures var e1 := Next(e, Awaited(e.sinks[i], i, answer));
            !Probing(e.sinks[i].state) && !Probing(e1.sinks[i].state) ==> Fresh(e1)
  {
    var s, ev := e.sinks[i], Awaited(e.sinks[i], i, answer);
    if s.state == PrbWRetry {
      assert Next(e, ev).flight == e.flight && Next(e, ev).nextSeq == e.nextSeq;
    } else if s.state != PrbWDelay && !Probing(s.state) {
      StaleResponseIgnored(e, i, ev.ev);
    }
    hide InFlight;
  }

  /** From any unsettled state with a discovered talker, at most three answered events settle the sink. */
  lemma {:induction false} SettlesInThree(e: State, i: nat, answer: Stream) returns (evs: seq<EntityEvent>)
    requires Inv(e) && i < |e.sinks| && e.sinks[i].discovered && !Settled(e.sinks[i].state)
    requires !Probing(e.sinks[i].state) ==> Fresh(e)
    ensures Legal(e, evs) && |evs| == Distance(e.sinks[i].state) <= 3
    ensures Run(e, evs).sinks[i].state == SettledNoRsv && Run(e, evs).sinks[i].stream == answer
    ensures Run(e, evs).sinks[i].binding == e.sinks[i].binding
    ensures Run(e, evs).sinks[i].log == e.sinks[i].log + [Connect(answer.id)]
    ensures forall j :: 0 <= j < |e.sinks| && j != i ==> Run(e, evs).sinks[j] == e.sinks[j]
    ensures Inv(Run(e, evs))
    decreases Distance(e.sinks[i].state)
  {
    var ev := Awaited(e.sinks[i], i, answer);
    AwaitedComesCloser(e, i, answer);
    StepKeeps(e, ev);
    var e1 := Next(e, ev);
    AnsweredComesCloser(e, i, answer);
    ProbedOnce(e, i, answer);
    hide Next, Step, FlightStep, Owned, Exclusive, Occurs, Admissible;
    if Probing(e.sinks[i].state) {
      evs := [ev];
      assert Run(e, evs) == Run(e1, evs[1..]);
    } else {
      var rest := SettlesInThree(e1, i, answer);
      evs := [ev] + rest;
      assert evs[1..] == rest;
    }
  }

  /** Whether an event is for sink `i`: its timers, its probe, its messages, its talker's entity, its stream, its saved
    parameters. */
  ghost predicate Concerns(e: State, i: nat, ev: EntityEvent)
    requires i < |e.sinks| && Occurs(e, ev)
  {
    match ev
    case TimerFires(j, _) => j == i
    case DiscoveryTimerFires(j) => j == i
    case NoResponse(p) => e.flight[p].listenerUid == i
    case AcmpReceived(j, _) => j == i
    case AdpReceived(entityId, _) => e.sinks[i].binding.talker == entityId
    case SrpReceived(_, stream) => FindStream(e.sinks, stream.id, 0) == i
    case SavedBinding(j, _) => j == i
    case Elsewhere(_, _) => false
  }

  lemma {:induction false} AdpPasses(e: State, i: nat, entityId: nat, adp: AdpEvent, n: nat)
    requires i < |e.sinks| == |e.gptp| && n <= |e.sinks| && e.sinks[i].binding.talker != entityId
    ensures AdpUpTo(e, entityId, adp, n).sinks[i] == e.sinks[i]
  {
    if n > 0 {
      AdpPasses(e, i, entityId, adp, n - 1);
      if n - 1 != i { AdpElsewhere(AdpUpTo(e, entityId, adp, n - 1), i, n - 1, entityId, adp); }
    }
  }

  lemma AdpElsewhere(e: State, i: nat, j: nat, entityId: nat, adp: AdpEvent)
    requires i < |e.sinks| == |e.gptp| && j < |e.sinks| && i != j
    ensures AdpAt(e, j, entityId, adp).sinks[i] == e.sinks[i]
  {
    hide Step, FlightStep;
  }

  /** An event for another sink, another entity or another stream leaves a sink as it is. */
  lemma OthersUntouched(e: State, i: nat, ev: EntityEvent)
    requires i < |e.sinks| == |e.gptp| && Occurs(e, ev) && !Concerns(e, i, ev)
    ensures Next(e, ev).sinks[i] == e.sinks[i]
  {
    hide Step, FlightStep;
    if ev.AdpReceived? { AdpPasses(e, i, ev.entityId, ev.adp, |e.sinks|); }
  }

  /** A run in which sink `i` sees nothing but the events it waits for, and everything else may happen in between. */
  ghost predicate Answers(e: State, i: nat, answer: Stream, evs: seq<EntityEvent>)
    requires i < |e.sinks| && Legal(e, evs)
    decreases |evs|
  {
    evs != [] ==>
      && (Concerns(e, i, evs[0]) ==> evs[0] == Awaited(e.sinks[i], i, answer))
      && Answers(Next(e, evs[0]), i, answer, evs[1..])
  }

  ghost function Seen(e: State, i: nat, evs: seq<EntityEvent>): (n: nat)
    requires i < |e.sinks| && Legal(e, evs)
    decreases |evs|
  {
    if evs == [] then 0 else (if Concerns(e, i, evs[0]) then 1 else 0) + Seen(Next(e, evs[0]), i, evs[1..])
  }

  /** Whatever happens to other sinks in between: every event the sink waits for brings it one step closer, and after
    as many as its distance, at most three, it is settled on the answered stream. */
  lemma {:induction false} SettlesInterleaved(e: State, i: nat, answer: Stream, evs: seq<EntityEvent>)
    requires Inv(e) && i < |e.sinks| && e.sinks[i].discovered && !Settled(e.sinks[i].state)
    requires Legal(e, evs) && Answers(e, i, answer, evs) && Seen(e, i, evs) <= Distance(e.sinks[i].state)
    ensures Distance(e.sinks[i].state) <= 3
    ensures var s := Run(e, evs).sinks[i];
            && Distance(s.state) == Distance(e.sinks[i].state) - Seen(e, i, evs)
            && s.discovered && s.binding == e.sinks[i].binding
            && (Seen(e, i, evs) == Distance(e.sinks[i].state) ==> s.state == SettledNoRsv && s.stream == answer)
    decreases |evs|
  {
    if evs != [] {
      var ev, e1 := evs[0], Next(e, evs[0]);
      StepKeeps(e, ev);
      if Concerns(e, i, ev) {
        AnsweredComesCloser(e, i, answer);
        if Settled(e1.sinks[i].state) {
          StaysWhileUnseen(e1, i, evs[1..]);
        } else {
          SettlesInterleaved(e1, i, answer, evs[1..]);
        }
      } else {
        OthersUntouched(e, i, ev);
        SettlesInterleaved(e1, i, answer, evs[1..]);
      }
    }
  }

  lemma AnsweredComesCloser(e: State, i: nat, answer: Stream)
    requires Inv(e) && i < |e.sinks| && e.sinks[i].discovered && !Settled(e.sinks[i].state)
    requires var ev := Awaited(e.sinks[i], i, answer); Occurs(e, ev) && Admissible(e, ev)
    ensures var s, s' := e.sinks[i], Next(e, Awaited(e.sinks[i], i, answer)).sinks[i];
            && Distance(s'.state) == Distance(s.state) - 1
            && s'.discovered && s'.binding == s.binding
            && (Distance(s.state) == 1 ==> s'.state == SettledNoRsv && s'.stream == answer)
            && (Distance(s.state) > 1 ==> !Settled(s'.state))
  {
    AwaitedComesCloser(e, i, answer);
  }

  lemma {:induction false} StaysWhileUnseen(e: State, i: nat, evs: seq<EntityEvent>)
    requires Inv(e) && i < |e.sinks| && Legal(e, evs) && Seen(e, i, evs) == 0
    ensures Run(e, evs).sinks[i] == e.sinks[i]
    decreases |evs|
  {
    if evs != [] {
      StepKeeps(e, evs[0]);
      OthersUntouched(e, i, evs[0]);
      StaysWhileUnseen(Next(e, evs[0]), i, evs[1..]);
    }
  }

  // ---------------------------------------------------------------- what the outside sees

  /** A regressed available_index restarts every sink that is still looking for its talker, and no settled one. */
  lemma RegressionRestarts(e: State, i: nat, adp: AdpEvent)
    requires Inv(e) && i < |e.sinks| && adp.Available? && e.sinks[i].discovered
    requires adp.interface == e.sinks[i].interface && Regressed(adp.available, e.sinks[i].available)
    ensures
      var s, s' := e.sinks[i], DiscoveryAt(e, i, adp).sinks[i];
      && (Settled(s.state) ==> s'.state == s.state && s'.stream == s.stream && s'.log == s.log)
      && (!Settled(s.state) ==> s'.state == if adp.gptp == e.gptp[i] then PrbWDelay else PrbWAvail)
      && s'.discovered == (adp.gptp == e.gptp[i])
      && s'.binding == s.binding
  {
  }

  /** SUCCESS means bound as asked (or unbound as asked); any other status means nothing changed. */
  lemma ReplyHonest(e: State, i: nat, ev: Event)
    requires Inv(e) && (ev.BindRx? || ev.UnbindRx?)
    ensures |Reply(e, i, ev)| == 1
    ensures
      var status := Reply(e, i, ev)[0].status;
      var r := Next(e, AcmpReceived(i, ev));
      if status == STAT_SUCCESS then
        && i < |e.sinks|
        && r.sinks[i].binding == (if ev.BindRx? then ev.binding else NoBinding)
        && (ev.UnbindRx? ==> r.sinks[i].state == Unbound)
        && (ev.BindRx? ==> r.sinks[i].state != Unbound)
        && (ev.BindRx? ==> forall j :: 0 <= j < |e.sinks| && j != i ==> !SameTalker(e.sinks[j].binding, ev.binding))
      else r == e
  {
    if i < |e.sinks| && Reply(e, i, ev)[0].status != STAT_SUCCESS {
      assert e.sinks[i := e.sinks[i]] == e.sinks;
    }
  }

  /** A response that answers no command in flight, or reaches a sink that does not wait for one, changes nothing. */
  lemma StaleResponseIgnored(e: State, i: nat, ev: Event)
    requires i < |e.sinks| && ev.ProbeTxResp?
    requires !Probing(e.sinks[i].state) || !InFlight(e.flight, ev.sequenceId)
    ensures SinkAt(e, i, ev) == e
  {
    assert e.sinks[i := e.sinks[i]] == e.sinks;
    if Probing(e.sinks[i].state) {
      RemoveFirstMiss(e.flight, ev.sequenceId);
    }
  }
}
