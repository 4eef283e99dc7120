/**
 Advertising an entity on its interfaces (IEEE 1722.1-2013 sections 6.2.4 and 6.2.5; avdecc/adp_ieee.c): what one
 event, run to completion, does to the entity machine and to the machine of every interface.

 `round` counts announcements since the available index was last set to zero, without wrapping; messages are kept
 in a log.
 */
module AdvertiseMachine {
  import opened WrapArithmetic

  datatype EntityState = NotStarted | Waiting | Advertise | Delay
  datatype PortState = PortNotStarted | PortWaiting | PortAdvertise | PortDeparting
    | PortReceivedDiscover | PortUpdateGm | PortLinkDown

  datatype EntityEvent = Begin | AdvertiseRequest | ReannounceTimeout | DelayTimeout | Terminate | Run
  datatype PortEvent = PortBegin | PortAnnounce | PortTerminate | LinkDown
    | ReceivedDiscover | GmChange | LinkUp | PortRun

  datatype Msg = Available(port: nat, index: nat, round: nat) | Departing(port: nat, index: nat)

  datatype Adv = Adv(state: EntityState, delayTimer: bool, reannounceTimer: bool, index: nat,
                     ports: seq<PortState>, links: seq<bool>, round: nat, epoch: nat, log: seq<Msg>)

  predicate StablePort(s: PortState) {
    s.PortNotStarted? || s.PortWaiting? || s.PortLinkDown?
  }

  predicate StablePorts(a: Adv) {
    forall p :: 0 <= p < |a.ports| ==> StablePort(a.ports[p])
  }

  /** The events an interface machine gets from outside; the others come from the entity machine. */
  predicate External(ev: PortEvent) {
    ev.ReceivedDiscover? || ev.GmChange? || ev.LinkUp?
  }

  // ---------------------------------------------------------------- one interface

  function SetPort(a: Adv, p: nat, s: PortState): (b: Adv)
    requires p < |a.ports|
  {
    a.(ports := a.ports[p := s])
  }

  /** The entity is asked to announce itself: it does after a random delay, if it is waiting. */
  function Reannounce(a: Adv): (b: Adv) {
    if a.state.Waiting?
    then a.(reannounceTimer := false, index := (a.index + 1) % U32, round := a.round + 1,
           delayTimer := true, state := Delay)
    else a
  }

  /** What a state with an unconditional exit does. */
  function LeaveTransient(a: Adv, p: nat): (b: Adv)
    requires p < |a.ports|
  {
    match a.ports[p]
    case PortDeparting => SetPort(a, p, PortNotStarted).(log := a.log + [Departing(p, a.index)])
    case PortAdvertise => SetPort(a, p, PortWaiting).(log := a.log + [Available(p, a.index, a.round)])
    case PortReceivedDiscover | PortUpdateGm => SetPort(Reannounce(a), p, PortWaiting)
    case PortNotStarted | PortWaiting | PortLinkDown => a
  }

  /** The state an event leads to first. */
  function Triggered(s: PortState, link: bool, ev: PortEvent): (t: PortState) {
    if s.PortNotStarted? && ev.PortBegin? then (if link then PortWaiting else PortLinkDown)
    else if s.PortWaiting? then
      match ev
      case PortTerminate => PortDeparting
      case PortAnnounce => PortAdvertise
      case ReceivedDiscover => PortReceivedDiscover
      case GmChange => PortUpdateGm
      case LinkDown => PortLinkDown
      case PortBegin | LinkUp | PortRun => s
    else s
  }

  /** An event at interface `p`, run to completion. */
  function PortStep(a: Adv, p: nat, ev: PortEvent): (b: Adv)
    requires p < |a.ports| == |a.links|
    ensures |b.ports| == |a.ports| && b.links == a.links
  {
    if !StablePort(a.ports[p]) then LeaveTransient(a, p)
    else if a.ports[p].PortLinkDown? && ev.LinkUp? then SetPort(Reannounce(a), p, PortWaiting)
    else LeaveTransient(SetPort(a, p, Triggered(a.ports[p], a.links[p], ev)), p)
  }

  /** The same event at the first `n` interfaces, one after the other. */
  function PortSteps(a: Adv, n: nat, ev: PortEvent): (b: Adv)
    requires n <= |a.ports| == |a.links|
    ensures |b.ports| == |a.ports| && b.links == a.links
  {
    if n == 0 then a else PortStep(PortSteps(a, n - 1, ev), n - 1, ev)
  }

  // ---------------------------------------------------------------- the entity

  function Announce(a: Adv): (b: Adv)
    requires |a.ports| == |a.links|
  {
    PortSteps(a, |a.ports|, PortAnnounce).(reannounceTimer := true, state := Waiting)
  }

  /** An event of the entity machine, run to completion. */
  function EntityStep(a: Adv, ev: EntityEvent): (b: Adv)
    requires |a.ports| == |a.links|
    ensures |b.ports| == |b.links| && b.links == a.links
  {
    match a.state
    case NotStarted =>
      if ev.Begin? then
        PortSteps(a.(index := 0, round := 0, epoch := |a.log|), |a.ports|, PortBegin)
        .(delayTimer := true, state := Delay)
      else a
    case Delay =>
      if ev.DelayTimeout? then Announce(a.(state := Advertise))
      else if ev.Terminate? then a.(delayTimer := false, state := NotStarted)
      else a
    case Advertise => Announce(a)
    case Waiting =>
      match ev
      case Terminate =>
        PortSteps(a.(reannounceTimer := false, index := 0, round := 0, epoch := |a.log|),
                  |a.ports|, PortTerminate).(state := NotStarted)
      case AdvertiseRequest => Reannounce(a)
      case ReannounceTimeout => a.(index := (a.index + 1) % U32, round := a.round + 1,
           delayTimer := true, state := Delay)
      case Begin | DelayTimeout | Run => a
  }

  // ---------------------------------------------------------------- events from outside

  datatype Event =
    | Start
    | Exit(ready: bool)
    | DelayTimerFired(ready: bool)
    | ReannounceTimerFired(ready: bool)
    | Discover(port: nat)
    | GrandmasterChanged(port: nat, ready: bool)
    | LinkStatus(port: nat, up: bool, ready: bool)

  /** A timer fires only while it runs, and an interface is one the entity has. */
  predicate Occurs(a: Adv, ev: Event) {
    match ev
    case DelayTimerFired(_) => a.delayTimer
    case ReannounceTimerFired(_) => a.reannounceTimer
    case Discover(p) => p < |a.ports|
    case GrandmasterChanged(p, _) => p < |a.ports|
    case LinkStatus(p, _, _) => p < |a.ports|
    case Start | Exit(_) => true
  }

  function Step(a: Adv, ev: Event): (b: Adv)
    requires |a.ports| == |a.links| && Occurs(a, ev)
    ensures |b.ports| == |b.links|
  {
    match ev
    case Start => EntityStep(a, Begin)
    case Exit(ready) => if ready then EntityStep(a, Terminate) else a
    case DelayTimerFired(ready) =>
      var b := a.(delayTimer := false);
      if ready then EntityStep(b, DelayTimeout) else b
    case ReannounceTimerFired(ready) =>
      var b := a.(reannounceTimer := false);
      if ready then EntityStep(b, ReannounceTimeout) else b
    case Discover(p) => PortStep(a, p, ReceivedDiscover)
    case GrandmasterChanged(p, ready) => if ready then PortStep(a, p, GmChange) else a
    case LinkStatus(p, up, ready) =>
      var b := if !ready || up == a.links[p] then a else PortStep(a, p, if up then LinkUp else LinkDown);
      b.(links := a.links[p := up])
  }

  // ---------------------------------------------------------------- what every event keeps

  /** At rest: no transient state, and of the two timers exactly the one its state waits for runs. */
  predicate AtRest(a: Adv) {
    && |a.ports| == |a.links|
    && !a.state.Advertise?
    && StablePorts(a)
    && (a.delayTimer <==> a.state.Delay?)
    && (a.reannounceTimer <==> a.state.Waiting?)
  }

  /** Since the index was last zero, no interface announced the same round twice, or an earlier one later. */
  ghost predicate Ordered(a: Adv) {
    && a.epoch <= |a.log|
    && a.index == a.round % U32
    && (forall i :: a.epoch <= i < |a.log| && a.log[i].Available? ==> Announced(a, a.log[i]))
    && (forall i, j :: a.epoch <= i < j < |a.log| ==> Later(a.log[i], a.log[j]))
  }

  predicate Announced(a: Adv, m: Msg)
    requires m.Available?
  {
    && m.index == m.round % U32
    && (if a.state.Delay? || a.state.Advertise? then m.round < a.round else m.round <= a.round)
  }

  predicate Later(m: Msg, n: Msg) {
    m.Available? && n.Available? && m.port == n.port ==> m.round < n.round
  }

  // ---------------------------------------------------------------- the loops over the interfaces

  /** An event of the entity machine makes a waiting interface send a message. */
  predicate Sends(s: PortState, ev: PortEvent) {
    s.PortWaiting? && (ev.PortAnnounce? || ev.PortTerminate?)
  }

  function MessageOf(p: nat, index: nat, round: nat, ev: PortEvent): (m: Msg)
    ensures m.port == p
  {
    if ev.PortAnnounce? then Available(p, index, round) else Departing(p, index)
  }

  /** One message for every waiting interface below `n`. */
  function Messages(a: Adv, n: nat, ev: PortEvent): (ms: seq<Msg>)
    requires n <= |a.ports|
  {
    if n == 0 then []
    else
      var before := Messages(a, n - 1, ev);
      if Sends(a.ports[n - 1], ev) then before + [MessageOf(n - 1, a.index, a.round, ev)] else before
  }

  predicate IsMessage(a: Adv, n: nat, ev: PortEvent, m: Msg)
    requires n <= |a.ports|
  {
    m.port < n && Sends(a.ports[m.port], ev) && m == MessageOf(m.port, a.index, a.round, ev)
  }

  /** Messages of interfaces below `n`, in interface order, so none twice. */
  predicate InOrder(a: Adv, n: nat, ev: PortEvent, ms: seq<Msg>)
    requires n <= |a.ports|
  {
    && (forall i {:trigger ms[i]} :: 0 <= i < |ms| ==> IsMessage(a, n, ev, ms[i]))
    && (forall i, j :: 0 <= i < j < |ms| ==> ms[i].port < ms[j].port)
  }

  /** Every waiting interface sends one message, in order, and nothing else is sent. */
  lemma MessagesExact(a: Adv, n: nat, ev: PortEvent)
    requires n <= |a.ports|
    ensures InOrder(a, n, ev, Messages(a, n, ev))
    ensures forall p :: 0 <= p < n && Sends(a.ports[p], ev) ==> MessageOf(p, a.index, a.round, ev) in Messages(a, n, ev)
  {
    MessagesInOrder(a, n, ev);
    MessagesComplete(a, n, ev);
  }

  lemma {:induction false} MessagesInOrder(a: Adv, n: nat, ev: PortEvent)
    requires n <= |a.ports|
    ensures InOrder(a, n, ev, Messages(a, n, ev))
  {
    if n > 0 {
      MessagesInOrder(a, n - 1, ev);
      OrderExtends(a, n, ev, Messages(a, n - 1, ev));
    }
  }

  lemma OrderExtends(a: Adv, n: nat, ev: PortEvent, ms: seq<Msg>)
    requires 0 < n <= |a.ports| && InOrder(a, n - 1, ev, ms)
    ensures InOrder(a, n, ev, ms)
    ensures Sends(a.ports[n - 1], ev) ==> InOrder(a, n, ev, ms + [MessageOf(n - 1, a.index, a.round, ev)])
  {
  }

  lemma {:induction false} MessagesComplete(a: Adv, n: nat, ev: PortEvent)
    requires n <= |a.ports|
    ensures forall p :: 0 <= p < n && Sends(a.ports[p], ev) ==> MessageOf(p, a.index, a.round, ev) in Messages(a, n, ev)
  {
    if n > 0 { MessagesComplete(a, n - 1, ev); }
  }

  /** Where an event of the entity machine leaves an interface. */
  function Settled(s: PortState, link: bool, ev: PortEvent): (t: PortState) {
    if s.PortWaiting? && ev.PortTerminate? then PortNotStarted
    else if s.PortNotStarted? && ev.PortBegin? then (if link then PortWaiting else PortLinkDown)
    else s
  }

  function SettledPorts(ports: seq<PortState>, links: seq<bool>, n: nat, ev: PortEvent): (r: seq<PortState>)
    requires n <= |ports| == |links|
    ensures |r| == |ports|
    ensures forall p :: 0 <= p < |ports| ==> r[p] == if p < n then Settled(ports[p], links[p], ev) else ports[p]
  {
    if n == 0 then ports else SettledPorts(ports, links, n - 1, ev)[n - 1 := Settled(ports[n - 1], links[n - 1], ev)]
  }

  /** The closed form of a loop over the first `n` interfaces. */
  function Stepped(a: Adv, n: nat, ev: PortEvent): (b: Adv)
    requires n <= |a.ports| == |a.links|
  {
    a.(ports := SettledPorts(a.ports, a.links, n, ev), log := a.log + Messages(a, n, ev))
  }

  lemma {:induction false} PortStepsAre(a: Adv, n: nat, ev: PortEvent)
    requires n <= |a.ports| == |a.links| && StablePorts(a)
    requires ev.PortBegin? || ev.PortAnnounce? || ev.PortTerminate?
    ensures PortSteps(a, n, ev) == Stepped(a, n, ev)
    ensures StablePorts(PortSteps(a, n, ev))
  {
    hide PortStep;
    if n == 0 {
      assert a.log + [] == a.log;
    } else {
      PortStepsAre(a, n - 1, ev);
      OneMore(a, n - 1, ev);
    }
    SettledIsStable(a, n, ev);
  }

  lemma OneMore(a: Adv, n: nat, ev: PortEvent)
    requires n < |a.ports| == |a.links| && StablePorts(a)
    requires ev.PortBegin? || ev.PortAnnounce? || ev.PortTerminate?
    ensures PortStep(Stepped(a, n, ev), n, ev) == Stepped(a, n + 1, ev)
  {
    SettledIsStable(a, n, ev);
    OnePortIs(Stepped(a, n, ev), n, ev);
    var before := Messages(a, n, ev);
    if Sends(a.ports[n], ev) {
      assert a.log + (before + [MessageOf(n, a.index, a.round, ev)]) ==
             a.log + before + [MessageOf(n, a.index, a.round, ev)];
    }
  }

  lemma SettledIsStable(a: Adv, n: nat, ev: PortEvent)
    requires n <= |a.ports| == |a.links| && StablePorts(a)
    ensures StablePorts(a.(ports := SettledPorts(a.ports, a.links, n, ev)))
  {
    forall p | 0 <= p < |a.ports| ensures StablePort(SettledPorts(a.ports, a.links, n, ev)[p]) {
      assert StablePort(a.ports[p]);
    }
  }

  lemma OnePortIs(a: Adv, p: nat, ev: PortEvent)
    requires p < |a.ports| == |a.links| && StablePorts(a)
    requires ev.PortBegin? || ev.PortAnnounce? || ev.PortTerminate?
    ensures PortStep(a, p, ev) ==
            a.(ports := a.ports[p := Settled(a.ports[p], a.links[p], ev)],
               log := if Sends(a.ports[p], ev) then a.log + [MessageOf(p, a.index, a.round, ev)] else a.log)
  {
    assert a.ports[p := a.ports[p]] == a.ports;
  }

  // ---------------------------------------------------------------- theorems

  lemma SameOrder(a: Adv, b: Adv)
    requires Ordered(a) && b.log == a.log && b.epoch == a.epoch && b.index == b.round % U32
    requires b.round == a.round && (b.state.Delay? || b.state.Advertise? ==> a.state.Delay? || a.state.Advertise?)
    ensures Ordered(b)
  {
    forall i | b.epoch <= i < |b.log| && b.log[i].Available? ensures Announced(b, b.log[i]) {
      assert Announced(a, a.log[i]);
    }
  }

  lemma ReannounceKeeps(a: Adv, b: Adv)
    requires Ordered(a) && a.state.Waiting?
    requires b.log == a.log && b.epoch == a.epoch && b.round == a.round + 1 && b.index == (a.index + 1) % U32
    ensures Ordered(b)
  {
    forall i | b.epoch <= i < |b.log| && b.log[i].Available? ensures Announced(b, b.log[i]) {
      assert Announced(a, a.log[i]);
    }
  }

  lemma AnnounceKeeps(a: Adv)
    requires |a.ports| == |a.links| && StablePorts(a) && Ordered(a) && a.state.Advertise?
    ensures Ordered(Announce(a))
  {
    PortStepsAre(a, |a.ports|, PortAnnounce);
    MessagesInOrder(a, |a.ports|, PortAnnounce);
    var ms := Messages(a, |a.ports|, PortAnnounce);
    forall i | 0 <= i < |ms| ensures ms[i] == Available(ms[i].port, a.index, a.round) {
      assert IsMessage(a, |a.ports|, PortAnnounce, ms[i]);
    }
    OrderedGrows(a, Announce(a), ms);
  }

  /** Announcing the current round after only earlier ones. */
  lemma OrderedGrows(a: Adv, b: Adv, ms: seq<Msg>)
    requires Ordered(a) && a.state.Advertise? && b.state.Waiting?
    requires b.log == a.log + ms && b.epoch == a.epoch && b.round == a.round && b.index == a.index
    requires forall i :: 0 <= i < |ms| ==> ms[i] == Available(ms[i].port, a.index, a.round)
    requires forall i, j :: 0 <= i < j < |ms| ==> ms[i].port < ms[j].port
    ensures Ordered(b)
  {
    var n := |a.log|;
    forall i | b.epoch <= i < |b.log| && b.log[i].Available? ensures Announced(b, b.log[i]) {
      if i < n { assert Announced(a, a.log[i]); } else { assert b.log[i] == ms[i - n]; }
    }
    forall i, j | b.epoch <= i < j < |b.log| ensures Later(b.log[i], b.log[j]) {
      if j < n {
        assert Later(a.log[i], a.log[j]);
      } else if i < n {
        assert b.log[j] == ms[j - n];
        if a.log[i].Available? { assert Announced(a, a.log[i]); }
      } else {
        assert b.log[i] == ms[i - n] && b.log[j] == ms[j - n];
      }
    }
  }

  lemma FreshEpoch(a: Adv, n: nat, ev: PortEvent)
    requires n <= |a.ports| == |a.links| && StablePorts(a) && a.index == a.round == 0 && a.epoch == |a.log|
    requires ev.PortBegin? || ev.PortTerminate?
    ensures Ordered(PortSteps(a, n, ev)) && StablePorts(PortSteps(a, n, ev))
  {
    PortStepsAre(a, n, ev);
    NoAnnouncements(a, n, ev);
  }

  lemma {:induction false} NoAnnouncements(a: Adv, n: nat, ev: PortEvent)
    requires n <= |a.ports| && !ev.PortAnnounce?
    ensures forall i :: 0 <= i < |Messages(a, n, ev)| ==> !Messages(a, n, ev)[i].Available?
  {
    if n > 0 { NoAnnouncements(a, n - 1, ev); }
  }

  ghost predicate Inv(a: Adv) {
    AtRest(a) && Ordered(a)
  }

  /** A timer that fires while the entity's channels are not all open is lost. */
  predicate TimerLost(ev: Event) {
    (ev.DelayTimerFired? || ev.ReannounceTimerFired?) && !ev.ready
  }

  lemma PortStepKeeps(a: Adv, p: nat, ev: PortEvent)
    requires Inv(a) && p < |a.ports|
    requires External(ev) || ev.LinkDown?
    ensures Inv(PortStep(a, p, ev))
  {
    var b := PortStep(a, p, ev);
    assert StablePort(a.ports[p]);
    assert StablePorts(b) by {
      forall q | 0 <= q < |b.ports| ensures StablePort(b.ports[q]) { assert StablePort(a.ports[q]); }
    }
    if b.round == a.round { SameOrder(a, b); } else { ReannounceKeeps(a, b); }
  }

  lemma StartKeeps(a: Adv)
    requires Inv(a)
    ensures Inv(EntityStep(a, Begin))
  {
    if a.state.NotStarted? {
      var b := a.(index := 0, round := 0, epoch := |a.log|);
      FreshEpoch(b, |b.ports|, PortBegin);
      PortStepsAre(b, |b.ports|, PortBegin);
      NoneAnnounced(PortSteps(b, |b.ports|, PortBegin), EntityStep(a, Begin), |a.log|, b, PortBegin);
    }
  }

  lemma TerminateKeeps(a: Adv)
    requires Inv(a)
    ensures Inv(EntityStep(a, Terminate))
  {
    if a.state.Waiting? {
      var b := a.(reannounceTimer := false, index := 0, round := 0, epoch := |a.log|);
      FreshEpoch(b, |b.ports|, PortTerminate);
      PortStepsAre(b, |b.ports|, PortTerminate);
      NoneAnnounced(PortSteps(b, |b.ports|, PortTerminate), EntityStep(a, Terminate), |a.log|, b, PortTerminate);
    } else {
      SameOrder(a, EntityStep(a, Terminate));
    }
  }

  /** Nothing was announced since the index was set to zero, so the state does not matter. */
  lemma NoneAnnounced(a: Adv, b: Adv, from: nat, start: Adv, ev: PortEvent)
    requires |start.ports| == |start.links| && from == |start.log| && !ev.PortAnnounce?
    requires a.log == start.log + Messages(start, |start.ports|, ev) && a.epoch == from
    requires Ordered(a) && b.log == a.log && b.epoch == a.epoch && b.round == a.round && b.index == a.index
    ensures Ordered(b)
  {
    NoAnnouncements(start, |start.ports|, ev);
  }

  /** Every event from outside, run to completion, ends in stable states with exactly the right timer running, for
    any number of interfaces, unless a timer is lost; and the available index never repeats or goes back. */
  lemma StepExact(a: Adv, ev: Event)
    requires Inv(a) && Occurs(a, ev)
    ensures Ordered(Step(a, ev))
    ensures AtRest(Step(a, ev)) <==> !TimerLost(ev)
  {
    match ev
    case Start => StartKeeps(a);
    case Exit(ready) => if ready { TerminateKeeps(a); }
    case DelayTimerFired(ready) =>
      var b := a.(delayTimer := false);
      SameOrder(a, b);
      if ready {
        var c := b.(state := Advertise);
        SameOrder(b, c);
        AnnounceKeeps(c);
        DelayAnnounces(a);
      }
    case ReannounceTimerFired(ready) =>
      var b := a.(reannounceTimer := false);
      SameOrder(a, b);
      if ready { ReannounceKeeps(b, EntityStep(b, ReannounceTimeout)); }
    case Discover(p) => PortStepKeeps(a, p, ReceivedDiscover);
    case GrandmasterChanged(p, ready) => if ready { PortStepKeeps(a, p, GmChange); }
    case LinkStatus(p, up, ready) =>
      if ready && up != a.links[p] {
        PortStepKeeps(a, p, if up then LinkUp else LinkDown);
        SameOrder(PortStep(a, p, if up then LinkUp else LinkDown), Step(a, ev));
      } else {
        SameOrder(a, Step(a, ev));
      }
  }

  /** When the delay is over, every interface that waits announces the entity once, in order, and nothing else is
    sent; the interfaces stay as they are. */
  lemma DelayAnnounces(a: Adv)
    requires Inv(a) && a.state.Delay?
    ensures var b := Step(a, DelayTimerFired(true));
            && b == a.(state := Waiting, delayTimer := false, reannounceTimer := true,
                       log := a.log + Messages(a, |a.ports|, PortAnnounce))
  {
    var c := a.(delayTimer := false, state := Advertise);
    PortStepsAre(c, |c.ports|, PortAnnounce);
    MessagesSame(a, c, |a.ports|, PortAnnounce);
    SettledSame(a.ports, a.links, |a.ports|);
  }

  lemma {:induction false} MessagesSame(a: Adv, c: Adv, n: nat, ev: PortEvent)
    requires a.ports == c.ports && a.index == c.index && a.round == c.round && n <= |a.ports|
    ensures Messages(a, n, ev) == Messages(c, n, ev)
  {
    if n > 0 { MessagesSame(a, c, n - 1, ev); }
  }

  lemma SettledSame(ports: seq<PortState>, links: seq<bool>, n: nat)
    requires n <= |ports| == |links|
    ensures SettledPorts(ports, links, n, PortAnnounce) == ports
  {
  }

  /** On exit, a waiting entity says goodbye on every interface it was advertised on. While it delays an announcement
    it leaves without a message, and its interfaces stay as they are. */
  lemma ExitDeparts(a: Adv)
    requires Inv(a)
    ensures var b := Step(a, Exit(true));
            && b.state.NotStarted? && !b.delayTimer && !b.reannounceTimer
            && (a.state.Waiting? ==> b.log == a.log + Messages(a.(index := 0, round := 0), |a.ports|, PortTerminate))
            && (a.state.Waiting? ==> forall p :: 0 <= p < |b.ports| ==> !b.ports[p].PortWaiting?)
            && (!a.state.Waiting? ==> b.log == a.log && b.ports == a.ports)
  {
    if a.state.Waiting? {
      var c := a.(reannounceTimer := false, index := 0, round := 0, epoch := |a.log|);
      PortStepsAre(c, |c.ports|, PortTerminate);
      MessagesSame(a.(index := 0, round := 0), c, |a.ports|, PortTerminate);
    }
  }

  // ---------------------------------------------------------------- runs

  ghost predicate Legal(a: Adv, evs: seq<Event>)
    requires |a.ports| == |a.links|
    decreases |evs|
  {
    evs == [] || (Occurs(a, evs[0]) && !TimerLost(evs[0]) && Legal(Step(a, evs[0]), evs[1..]))
  }

  function After(a: Adv, evs: seq<Event>): (b: Adv)
    requires |a.ports| == |a.links| && Legal(a, evs)
    decreases |evs|
  {
    if evs == [] then a else After(Step(a, evs[0]), evs[1..])
  }

  lemma {:induction false} RunKeeps(a: Adv, evs: seq<Event>)
    requires Inv(a) && Legal(a, evs)
    ensures Inv(After(a, evs))
    decreases |evs|
  {
    if evs != [] {
      StepExact(a, evs[0]);
      RunKeeps(Step(a, evs[0]), evs[1..]);
    }
  }

  /** A started entity always announces itself again: from DELAY its running timer, and from WAITING its two timers one
    after the other, make every waiting interface send ENTITY_AVAILABLE, the second time with the next index. */
  lemma AnnouncesAgain(a: Adv)
    requires Inv(a) && !a.state.NotStarted?
    ensures a.state.Delay? ==>
              && Occurs(a, DelayTimerFired(true))
              && Step(a, DelayTimerFired(true)).state.Waiting?
              && Step(a, DelayTimerFired(true)).log == a.log + Messages(a, |a.ports|, PortAnnounce)
    ensures a.state.Waiting? ==>
              && Occurs(a, ReannounceTimerFired(true))
              && var b := Step(a, ReannounceTimerFired(true));
                 && Occurs(b, DelayTimerFired(true)) && b.index == (a.index + 1) % U32 && b.ports == a.ports
                 && Step(b, DelayTimerFired(true)).state.Waiting?
                 && Step(b, DelayTimerFired(true)).log == a.log + Messages(b, |b.ports|, PortAnnounce)
    ensures a.state.Delay? || a.state.Waiting?
  {
    if a.state.Delay? {
      DelayAnnounces(a);
    } else {
      StepExact(a, ReannounceTimerFired(true));
      DelayAnnounces(Step(a, ReannounceTimerFired(true)));
    }
  }

  /** On the wire: since the index was last set to zero, a later message of an interface carries the index of an
    earlier one advanced by at least one announcement, modulo 2^32. */
  lemma WireIndexAdvances(a: Adv, i: nat, j: nat)
    requires Ordered(a) && a.epoch <= i < j < |a.log|
    requires a.log[i].Available? && a.log[j].Available? && a.log[i].port == a.log[j].port
    ensures exists d :: 1 <= d <= a.round && Advanced(a.log[i].index, a.log[j].index, d)
  {
    var m, n := a.log[i], a.log[j];
    assert Announced(a, m) && Announced(a, n) && Later(m, n);
    var d := n.round - m.round;
    WrapsLeft(m.round, d, U32);
    assert 1 <= d <= a.round && Advanced(m.index, n.index, d);
  }

  predicate Advanced(from: nat, to: nat, d: nat) {
    to == (from + d) % U32
  }
}
