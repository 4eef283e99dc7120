/**
 What every event of the advertise machines leads to, told from the outside: the state of the entity, of its
 interfaces and timers, and the messages that follow.
 */
module AdvertiseOutcomes {
  import opened WrapArithmetic
  import opened AdvertiseMachine

  // ---------------------------------------------------------------- requests for an announcement

  /** Interface `p` asks for an announcement: it is advertised and a controller looks for the entity or the grandmaster
    has changed, or its link has just come up. */
  predicate Asks(a: Adv, ev: Event, p: nat)
    requires p < |a.ports| == |a.links|
  {
    || (ev == Discover(p) && a.ports[p].PortWaiting?)
    || (ev == GrandmasterChanged(p, true) && a.ports[p].PortWaiting?)
    || (ev == LinkStatus(p, true, true) && a.ports[p].PortLinkDown? && !a.links[p])
  }

  /** A waiting entity starts the delay of the next announcement, under the next index. One that delays an announcement
    already, or has not started, does nothing; the interface waits in any case. */
  lemma RequestOutcome(a: Adv, ev: Event, p: nat)
    requires Inv(a) && p < |a.ports| && Asks(a, ev, p)
    ensures var ports := a.ports[p := PortWaiting];
            var links := if ev.LinkStatus? then a.links[p := true] else a.links;
            Step(a, ev) ==
            if a.state.Waiting? then
              a.(state := Delay, delayTimer := true, reannounceTimer := false, index := (a.index + 1) % U32,
                 round := a.round + 1, ports := ports, links := links)
            else a.(ports := ports, links := links)
  {
    assert ev.LinkStatus? || a.ports[p := a.ports[p]] == a.ports;
  }

  /** Messages that announce an index once on every waiting interface, in their order, and nothing else. */
  ghost predicate AnnouncesOnce(ms: seq<Msg>, ports: seq<PortState>, index: nat) {
    && (forall i {:trigger ms[i]} :: 0 <= i < |ms| ==>
          ms[i].Available? && ms[i].index == index && ms[i].port < |ports| && ports[ms[i].port].PortWaiting?)
    && (forall i, j :: 0 <= i < j < |ms| ==> ms[i].port < ms[j].port)
    && (forall p :: 0 <= p < |ports| && ports[p].PortWaiting? ==> exists i :: 0 <= i < |ms| && ms[i].port == p)
  }

  /** A request is answered: when the delay is over, the entity announces itself under the next index on every waiting
    interface, the one that asked among them. */
  lemma RequestAnnounces(a: Adv, ev: Event, p: nat)
    requires Inv(a) && a.state.Waiting? && p < |a.ports| && Asks(a, ev, p)
    ensures var b := Step(a, ev);
            && Occurs(b, DelayTimerFired(true))
            && var c := Step(b, DelayTimerFired(true));
               && c.state.Waiting? && c.reannounceTimer && !c.delayTimer && a.log <= c.log
               && b.ports[p].PortWaiting? && AnnouncesOnce(c.log[|a.log|..], b.ports, (a.index + 1) % U32)
  {
    var b := Step(a, ev);
    RequestOutcome(a, ev, p);
    StepExact(a, ev);
    DelayAnnounces(b);
    MessagesAnnounce(b);
    assert (a.log + Messages(b, |b.ports|, PortAnnounce))[|a.log|..] == Messages(b, |b.ports|, PortAnnounce);
  }

  lemma MessagesAnnounce(b: Adv)
    ensures AnnouncesOnce(Messages(b, |b.ports|, PortAnnounce), b.ports, b.index)
  {
    var n, ms := |b.ports|, Messages(b, |b.ports|, PortAnnounce);
    MessagesExact(b, n, PortAnnounce);
    forall i {:trigger ms[i]} | 0 <= i < |ms|
      ensures ms[i].Available? && ms[i].index == b.index && ms[i].port < n && b.ports[ms[i].port].PortWaiting?
    {
      assert IsMessage(b, n, PortAnnounce, ms[i]);
    }
    forall p | 0 <= p < n && b.ports[p].PortWaiting? ensures exists i :: 0 <= i < |ms| && ms[i].port == p {
      assert MessageOf(p, b.index, b.round, PortAnnounce) in ms;
    }
  }

  /** Any other word of an interface changes nothing but the state of its link: an interface that is advertised while
    its link goes down is no longer. */
  lemma OtherwiseUnmoved(a: Adv, ev: Event, p: nat)
    requires Inv(a) && p < |a.ports| && !Asks(a, ev, p)
    requires ev == Discover(p) || (ev.GrandmasterChanged? && ev.port == p) || (ev.LinkStatus? && ev.port == p)
    ensures var down := ev.LinkStatus? && ev.ready && !ev.up && a.links[p] && a.ports[p].PortWaiting?;
            Step(a, ev) == a.(ports := if down then a.ports[p := PortLinkDown] else a.ports,
                              links := if ev.LinkStatus? then a.links[p := ev.up] else a.links)
  {
    assert StablePort(a.ports[p]);
    assert a.ports[p := a.ports[p]] == a.ports;
  }

  // ---------------------------------------------------------------- start, exit and timers

  /** A started entity delays its first announcement, under index zero, on the interfaces whose link is up. */
  lemma StartOutcome(a: Adv)
    requires Inv(a)
    ensures var b := Step(a, Start);
            if !a.state.NotStarted? then b == a
            else
              && b == a.(state := Delay, delayTimer := true, index := 0, round := 0, epoch := |a.log|, ports := b.ports)
              && |b.ports| == |a.ports|
              && forall p :: 0 <= p < |a.ports| ==>
                   b.ports[p] == if !a.ports[p].PortNotStarted? then a.ports[p]
                                 else if a.links[p] then PortWaiting else PortLinkDown
  {
    if a.state.NotStarted? {
      var c := a.(index := 0, round := 0, epoch := |a.log|);
      PortStepsAre(c, |c.ports|, PortBegin);
      NothingSent(c, |c.ports|);
    }
  }

  lemma {:induction false} NothingSent(a: Adv, n: nat)
    requires n <= |a.ports|
    ensures Messages(a, n, PortBegin) == []
  {
    if n > 0 { NothingSent(a, n - 1); }
  }

  /** Messages that say goodbye once on every waiting interface, in their order, and nothing else. */
  ghost predicate DepartsOnce(ms: seq<Msg>, ports: seq<PortState>, index: nat) {
    && (forall m :: m in ms <==>
          m.Departing? && m.index == index && m.port < |ports| && ports[m.port].PortWaiting?)
    && (forall i, j :: 0 <= i < j < |ms| ==> ms[i].port < ms[j].port)
  }

  /** An entity that leaves while waiting says so once on every interface it was advertised on, under index zero. */
  lemma ExitOutcome(a: Adv)
    requires Inv(a)
    ensures var b := Step(a, Exit(true));
            if a.state.Waiting? then
              && b == a.(state := NotStarted, reannounceTimer := false, index := 0, round := 0, epoch := |a.log|,
                         ports := b.ports, log := b.log)
              && |b.ports| == |a.ports| && a.log <= b.log
              && (forall p :: 0 <= p < |a.ports| ==>
                    b.ports[p] == if a.ports[p].PortWaiting? then PortNotStarted else a.ports[p])
              && DepartsOnce(b.log[|a.log|..], a.ports, 0)
            else b == a.(state := NotStarted, delayTimer := false)
  {
    if a.state.Waiting? {
      var c := a.(reannounceTimer := false, index := 0, round := 0, epoch := |a.log|);
      PortStepsAre(c, |c.ports|, PortTerminate);
      MessagesDepart(c);
      hide PortSteps, Messages, Ordered, DepartsOnce;
      var ms := Messages(c, |c.ports|, PortTerminate);
      assert (a.log + ms)[|a.log|..] == ms;
    }
  }

  lemma MessagesDepart(c: Adv)
    ensures DepartsOnce(Messages(c, |c.ports|, PortTerminate), c.ports, c.index)
  {
    MessagesExact(c, |c.ports|, PortTerminate);
    var ms := Messages(c, |c.ports|, PortTerminate);
    forall m
      ensures m in ms <==> m.Departing? && m.index == c.index && m.port < |c.ports| && c.ports[m.port].PortWaiting?
    {
      if m in ms {
        var i :| 0 <= i < |ms| && ms[i] == m;
        assert IsMessage(c, |c.ports|, PortTerminate, ms[i]);
      } else if m.Departing? && m.index == c.index && m.port < |c.ports| {
        assert m == MessageOf(m.port, c.index, c.round, PortTerminate);
      }
    }
  }

  /** The timers: after the delay the entity announces itself and waits; when it has waited long enough it delays the
    next announcement. */
  lemma TimerOutcome(a: Adv)
    requires Inv(a)
    ensures a.delayTimer ==>
              var b := Step(a, DelayTimerFired(true));
              && b == a.(state := Waiting, delayTimer := false, reannounceTimer := true, log := b.log)
              && a.log <= b.log && AnnouncesOnce(b.log[|a.log|..], a.ports, a.index)
    ensures a.reannounceTimer ==>
              Step(a, ReannounceTimerFired(true)) ==
              a.(state := Delay, delayTimer := true, reannounceTimer := false, index := (a.index + 1) % U32,
                 round := a.round + 1)
  {
    if a.delayTimer {
      DelayAnnounces(a);
      MessagesAnnounce(a);
      assert (a.log + Messages(a, |a.ports|, PortAnnounce))[|a.log|..] == Messages(a, |a.ports|, PortAnnounce);
    }
  }

  // ---------------------------------------------------------------- a lost timer

  /** Whatever can happen to an entity that nobody ends. */
  predicate Lives(a: Adv, evs: seq<Event>)
    requires |a.ports| == |a.links|
    decreases |evs|
  {
    evs == [] || (Occurs(a, evs[0]) && evs[0] != Exit(true) && Lives(Step(a, evs[0]), evs[1..]))
  }

  function Lived(a: Adv, evs: seq<Event>): (b: Adv)
    requires |a.ports| == |a.links| && Lives(a, evs)
    decreases |evs|
  {
    if evs == [] then a else Lived(Step(a, evs[0]), evs[1..])
  }

  predicate Stuck(a: Adv) {
    |a.ports| == |a.links| && StablePorts(a) && a.state.Delay? && !a.delayTimer && !a.reannounceTimer
  }

  lemma StuckStays(a: Adv, ev: Event)
    requires Stuck(a) && Occurs(a, ev) && ev != Exit(true)
    ensures Stuck(Step(a, ev)) && Step(a, ev).log == a.log
  {
    var b := Step(a, ev);
    forall q | 0 <= q < |b.ports| ensures StablePort(b.ports[q]) { assert StablePort(a.ports[q]); }
  }

  lemma {:induction false} StuckForever(a: Adv, evs: seq<Event>)
    requires Stuck(a) && Lives(a, evs)
    ensures Stuck(Lived(a, evs)) && Lived(a, evs).log == a.log
    decreases |evs|
  {
    if evs != [] {
      StuckStays(a, evs[0]);
      StuckForever(Step(a, evs[0]), evs[1..]);
    }
  }

  /** An entity whose delay timer fires while it is not ready never says anything again, whatever happens, unless it
    exits; the reannounce timer can be lost without harm, the next request announces the entity as before. */
  lemma LostDelaySilences(a: Adv, evs: seq<Event>)
    requires Inv(a) && a.delayTimer && Lives(Step(a, DelayTimerFired(false)), evs)
    ensures Lived(Step(a, DelayTimerFired(false)), evs).log == a.log
  {
    StuckForever(Step(a, DelayTimerFired(false)), evs);
  }

  lemma LostReannounceHeals(a: Adv, ev: Event, p: nat)
    requires Inv(a) && a.reannounceTimer && p < |a.ports| && Asks(a, ev, p)
    ensures Step(Step(a, ReannounceTimerFired(false)), ev) == Step(a, ev)
  {
    RequestOutcome(a, ev, p);
  }
}
