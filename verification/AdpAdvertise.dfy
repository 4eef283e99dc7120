/**
 The advertise machines as they are written (avdecc/adp_ieee.c): two methods that call each other, each looping
 until its state no longer changes. They terminate, and do what module AdvertiseMachine says.

 An interface machine calls the entity machine only for an event from outside, and the entity machine calls the
 interface machines only with events of its own: at most three calls are nested.
 */
module AdpAdvertise {
  import opened WrapArithmetic
  import opened AdvertiseMachine

  class Advertiser {
    var state: EntityState
    var delayTimer: bool
    var reannounceTimer: bool
    var availableIndex: nat
    const ports: array<PortState>
    const links: array<bool>

    ghost var round: nat
    ghost var epoch: nat
    ghost var log: seq<Msg>

    ghost predicate Wf() {
      ports.Length == links.Length
    }

    ghost function View(): (a: Adv)
      reads this, ports, links
    {
      Adv(state, delayTimer, reannounceTimer, availableIndex, ports[..], links[..], round, epoch, log)
    }

    ghost predicate Valid()
      reads this, ports, links
    {
      Wf() && Inv(View())
    }

    constructor (interfaces: nat)
      ensures Valid() && fresh(ports) && fresh(links)
      ensures state.NotStarted? && ports.Length == interfaces && log == []
    {
      ports := new PortState[interfaces](_ => PortNotStarted);
      links := new bool[interfaces](_ => false);
      state, delayTimer, reannounceTimer, availableIndex := NotStarted, false, false, 0;
      round, epoch, log := 0, 0, [];
    }

    method SetPortState(p: nat, s: PortState)
      requires Wf() && p < ports.Length
      modifies ports
      ensures View() == SetPort(old(View()), p, s)
    {
      ports[p] := s;
    }

    method SendAvailable(p: nat)
      requires p < ports.Length
      modifies `log
      ensures View() == old(View()).(log := old(log) + [Available(p, availableIndex, round)])
    {
      log := log + [Available(p, availableIndex, round)];
    }

    method SendDeparting(p: nat)
      requires p < ports.Length
      modifies `log
      ensures View() == old(View()).(log := old(log) + [Departing(p, availableIndex)])
    {
      log := log + [Departing(p, availableIndex)];
    }

    method Count()
      modifies `availableIndex, `round, `delayTimer
      ensures View() == old(View()).(index := (old(availableIndex) + 1) % U32, round := old(round) + 1,
                       delayTimer := true)
    {
      availableIndex, round, delayTimer := (availableIndex + 1) % U32, round + 1, true;
    }

    method ResetIndex()
      modifies `availableIndex, `round, `epoch
      ensures View() == old(View()).(index := 0, round := 0, epoch := |old(log)|)
    {
      availableIndex, round, epoch := 0, 0, |log|;
    }

    /** The entity machine is asked for an announcement, then the interface waits. */
    method AskEntity(p: nat)
      requires Wf() && p < ports.Length && !state.Advertise?
      modifies this, ports
      ensures View() == SetPort(Reannounce(old(View())), p, PortWaiting)
      decreases 1, 2
    {
      var r := EntitySm(AdvertiseRequest);
      SetPortState(p, PortWaiting);
    }

    /** One transition of an interface machine. Only transitions caused from outside call the entity machine. */
    method PortTransition(p: nat, ev: PortEvent, ghost fromOutside: bool)
      requires Wf() && p < ports.Length
      requires CallsEntity(ports[p], ev) ==> fromOutside && !state.Advertise?
      modifies this, ports
      ensures View() == PortTransitionOf(old(View()), p, ev)
      decreases if fromOutside then 2 else 0, 0
    {
      match ports[p] {
        case PortDeparting =>
          SendDeparting(p);
          SetPortState(p, PortNotStarted);
        case PortAdvertise =>
          SendAvailable(p);
          SetPortState(p, PortWaiting);
        case PortReceivedDiscover | PortUpdateGm =>
          AskEntity(p);
        case PortLinkDown =>
          if ev.LinkUp? { AskEntity(p); }
        case PortNotStarted | PortWaiting =>
          SetPortState(p, Triggered(ports[p], links[p], ev));
      }
    }

    /** The machine of interface `p`. It fails only for an interface the entity does not have. */
    method InterfaceSm(p: nat, event: PortEvent) returns (rc: int)
      requires Wf()
      requires p < ports.Length ==> StablePort(ports[p])
      requires External(event) ==> !state.Advertise?
      modifies this, ports
      ensures rc == if p < ports.Length then 0 else -1
      ensures View() == if p < ports.Length then PortStep(old(View()), p, event) else old(View())
      decreases if External(event) then 2 else 0, 1
    {
      if p >= ports.Length {
        return -1;
      }
      var ev := event;
      var again := true;
      while again
        invariant Wf()
        invariant PortStep(View(), p, ev) == PortStep(old(View()), p, event)
        invariant !again ==> View() == PortStep(View(), p, ev)
        invariant again ==> if StablePort(ports[p]) then ev == event || ev.PortRun? else ev.PortRun?
        invariant again && CallsEntity(ports[p], ev) ==> External(event) && !state.Advertise?
        decreases again, if !StablePort(ports[p]) then 1 else if ev.PortRun? then 0 else 2
      {
        var was := ports[p];
        TransitionThenRest(View(), p, ev);
        PortTransition(p, ev, External(event));
        again := was != ports[p];
        if again { ev := PortRun; }
      }
      rc := 0;
    }

    /** The same event for every interface in turn. */
    method AllInterfaces(event: PortEvent)
      requires Wf() && StablePorts(View())
      requires event.PortBegin? || event.PortAnnounce? || event.PortTerminate?
      modifies this, ports
      ensures View() == PortSteps(old(View()), ports.Length, event)
      decreases 0, 2
    {
      ghost var start := View();
      for p := 0 to ports.Length
        invariant View() == PortSteps(start, p, event)
      {
        StableThroughout(start, p, p, event);
        var r := InterfaceSm(p, event);
      }
    }

    method EntityTransition(ev: EntityEvent)
      requires Wf()
      requires ev.AdvertiseRequest? || ev.Run? || StablePorts(View())
      requires state.Advertise? ==> StablePorts(View())
      modifies this, ports
      ensures View() == EntityTransitionOf(old(View()), ev)
      decreases 1, 0
    {
      match state {
        case NotStarted =>
          if ev.Begin? {
            ResetIndex();
            AllInterfaces(PortBegin);
            delayTimer, state := true, Delay;
          }
        case Delay =>
          if ev.DelayTimeout? {
            state := Advertise;
          } else if ev.Terminate? {
            delayTimer, state := false, NotStarted;
          }
        case Advertise =>
          AllInterfaces(PortAnnounce);
          reannounceTimer, state := true, Waiting;
        case Waiting =>
          if ev.Terminate? {
            reannounceTimer := false;
            ResetIndex();
            AllInterfaces(PortTerminate);
            state := NotStarted;
          } else if ev.AdvertiseRequest? || ev.ReannounceTimeout? {
            if ev.AdvertiseRequest? { reannounceTimer := false; }
            Count();
            state := Delay;
          }
      }
    }

    /** The machine of the entity. */
    method EntitySm(event: EntityEvent) returns (rc: int)
      requires Wf() && !state.Advertise?
      requires event.AdvertiseRequest? || StablePorts(View())
      modifies this, ports
      ensures rc == 0 && View() == EntityStep(old(View()), event)
      decreases 1, 1
    {
      var ev := event;
      var again := true;
      while again
        invariant Wf()
        invariant EntityStep(View(), ev) == EntityStep(old(View()), event)
        invariant !again ==> View() == EntityStep(View(), ev)
        invariant again && !state.Advertise? ==> ev == event || ev.Run?
        invariant again && !ev.Run? ==> View() == old(View())
        invariant state.Advertise? ==> ev.Run? && StablePorts(View())
        decreases again, if state.Advertise? then 1 else if ev.Run? then 0 else 2
      {
        var was := state;
        EntityTransitionThenRest(View(), ev);
        EntityTransition(ev);
        again := was != state;
        if again { ev := Run; }
      }
      rc := 0;
    }

    // -------------------------------------------------------------- entry points

    method AdvertiseStart()
      requires Valid()
      modifies this, ports
      ensures Valid() && View() == Step(old(View()), Start)
    {
      StepExact(View(), Start);
      var r := EntitySm(Begin);
    }

    method AdvertiseExit(ready: bool)
      requires Valid()
      modifies this, ports
      ensures Valid() && View() == Step(old(View()), Exit(ready))
    {
      StepExact(View(), Exit(ready));
      if ready { var r := EntitySm(Terminate); }
    }

    method DelayTimeoutFired(ready: bool)
      requires Valid() && delayTimer
      modifies this, ports
      ensures View() == Step(old(View()), DelayTimerFired(ready)) && (Valid() <==> ready)
    {
      StepExact(View(), DelayTimerFired(ready));
      delayTimer := false;
      if ready { var r := EntitySm(DelayTimeout); }
    }

    method ReannounceTimeoutFired(ready: bool)
      requires Valid() && reannounceTimer
      modifies this, ports
      ensures View() == Step(old(View()), ReannounceTimerFired(ready)) && (Valid() <==> ready)
    {
      StepExact(View(), ReannounceTimerFired(ready));
      reannounceTimer := false;
      if ready { var r := EntitySm(ReannounceTimeout); }
    }

    method DiscoverRcv(p: nat)
      requires Valid() && p < ports.Length
      modifies this, ports
      ensures Valid() && View() == Step(old(View()), Discover(p))
    {
      StepExact(View(), Discover(p));
      assert StablePort(View().ports[p]);
      var r := InterfaceSm(p, ReceivedDiscover);
    }

    method GmStatus(p: nat, ready: bool)
      requires Valid() && p < ports.Length
      modifies this, ports
      ensures Valid() && View() == Step(old(View()), GrandmasterChanged(p, ready))
    {
      StepExact(View(), GrandmasterChanged(p, ready));
      assert StablePort(View().ports[p]);
      if ready { var r := InterfaceSm(p, GmChange); }
    }

    /** A change of the link state; for an interface the entity does not have, nothing happens. */
    method MacServiceStatus(p: nat, up: bool, ready: bool)
      requires Valid()
      modifies this, ports, links
      ensures Valid()
      ensures View() == if p < ports.Length then Step(old(View()), LinkStatus(p, up, ready)) else old(View())
    {
      if p >= ports.Length {
        return;
      }
      StepExact(View(), LinkStatus(p, up, ready));
      assert StablePort(View().ports[p]);
      if !links[p] && up {
        if ready { var r := InterfaceSm(p, LinkUp); }
      } else if links[p] && !up {
        if ready { var r := InterfaceSm(p, PortEvent.LinkDown); }
      }
      assert links[..] == old(links[..]);
      links[p] := up;
    }
  }

  lemma StableThroughout(a: Adv, n: nat, p: nat, ev: PortEvent)
    requires n <= |a.ports| == |a.links| && p < |a.ports| && StablePorts(a)
    requires ev.PortBegin? || ev.PortAnnounce? || ev.PortTerminate?
    ensures StablePort(PortSteps(a, n, ev).ports[p])
  {
    PortStepsAre(a, n, ev);
  }

  /** The transitions that call the entity machine. */
  predicate CallsEntity(s: PortState, ev: PortEvent) {
    s.PortReceivedDiscover? || s.PortUpdateGm?
    || (s.PortLinkDown? && ev.LinkUp?) || (s.PortWaiting? && External(ev) && !ev.LinkUp?)
  }

  function PortTransitionOf(a: Adv, p: nat, ev: PortEvent): (b: Adv)
    requires p < |a.ports| == |a.links|
  {
    if !StablePort(a.ports[p]) then LeaveTransient(a, p)
    else if a.ports[p].PortLinkDown? && ev.LinkUp? then SetPort(Reannounce(a), p, PortWaiting)
    else SetPort(a, p, Triggered(a.ports[p], a.links[p], ev))
  }

  function EntityTransitionOf(a: Adv, ev: EntityEvent): (b: Adv)
    requires |a.ports| == |a.links|
  {
    if a.state.Delay? && ev.DelayTimeout? then a.(state := Advertise) else EntityStep(a, ev)
  }

  /** A loop that repeats transitions until the state no longer changes runs the event to completion. */
  lemma TransitionThenRest(a: Adv, p: nat, ev: PortEvent)
    requires p < |a.ports| == |a.links|
    ensures var b := PortTransitionOf(a, p, ev);
            && PortStep(b, p, PortRun) == PortStep(a, p, ev)
            && (b.ports[p] == a.ports[p] ==> b == PortStep(a, p, ev) == a)
            && (StablePort(b.ports[p]) || StablePort(a.ports[p]))
            && (CallsEntity(b.ports[p], PortRun) ==> CallsEntity(a.ports[p], ev))
  {
    var b := PortTransitionOf(a, p, ev);
    assert b.ports[p := b.ports[p]] == b.ports;
    assert a.ports[p := a.ports[p]] == a.ports;
  }

  lemma EntityTransitionThenRest(a: Adv, ev: EntityEvent)
    requires |a.ports| == |a.links|
    ensures var b := EntityTransitionOf(a, ev);
            && EntityStep(b, Run) == EntityStep(a, ev)
            && (b.state == a.state ==> b == EntityStep(a, ev) == a)
            && (b.state.Advertise? ==> a.state.Delay? && b.ports == a.ports)
  {
    assert EntityStep(a, ev).state == a.state ==> EntityStep(a, ev) == a;
  }
}
