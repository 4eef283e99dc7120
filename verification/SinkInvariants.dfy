/**
 What every run of the Milan listener keeps, proved about the abstract machine.

 `Inv` is the conjunction of the per-sink facts, exclusive binding and the ownership of the commands in
 flight.  `StepExact` says which events keep it: exactly the admissible ones.
 */
module SinkInvariants {
  import opened InflightPool
  import opened AcmpCommands
  import opened SinkMachine

  // ---------------------------------------------------------------- the invariant

  predicate NullTalker(b: Binding) {
    b.talker == 0 && b.talkerUid == 0
  }

  /** Connect and disconnect messages alternate, each disconnect closing the stream of the connect before it. */
  ghost predicate Alternates(log: seq<StackMsg>) {
    && (log != [] ==> log[0].Connect?)
    && (forall k :: 1 <= k < |log| ==> if log[k].Connect? then log[k - 1].Disconnect?
                                       else log[k - 1] == Connect(log[k].streamId))
  }

  /** The last message is a connect that no disconnect has followed yet. */
  predicate Open(log: seq<StackMsg>) {
    log != [] && log[|log| - 1].Connect?
  }

  /** The stack connection is open iff the sink is settled, and then on the stream of the sink. */
  ghost predicate LogOk(s: Sink) {
    && Alternates(s.log)
    && (Open(s.log) <==> Settled(s.state))
    && (Settled(s.state) ==> s.log[|s.log| - 1] == Connect(s.stream.id))
  }

  /** The parameters of a sink match its state: no binding when unbound, no stream outside the settled states. */
  predicate Plain(s: Sink) {
    && (s.state == Unbound <==> NullTalker(s.binding))
    && (s.state == Unbound ==> s.binding == NoBinding)
    && (!Settled(s.state) ==> s.stream == NoStream)
    && (s.acmpStatus != 0 ==> ProbingOf(s.state) == Active)
  }

  /** What a sink keeps even in the middle of a call. */
  ghost predicate Local(s: Sink) {
    Plain(s) && LogOk(s)
  }

  /** Discovery and sink machine agree. */
  predicate Agrees(s: Sink) {
    && s.discoveryTimer == s.discovered
    && (s.state == Unbound || s.state == PrbWAvail ==> !s.discovered)
    && (s.state == PrbWDelay ==> s.discovered)
  }

  /** SRP reports a talker iff the sink is settled with a reservation. */
  predicate SrpAgrees(s: Sink) {
    s.srp != NoTalker <==> s.state == SettledRsvOk
  }

  ghost predicate Quiet(s: Sink) {
    Local(s) && Agrees(s) && SrpAgrees(s)
  }

  ghost predicate Exclusive(sinks: seq<Sink>) {
    forall i, j :: 0 <= i < j < |sinks| && sinks[i].state != Unbound && sinks[j].state != Unbound ==>
      !SameTalker(sinks[i].binding, sinks[j].binding)
  }

  /** The commands in flight are exactly the probes of the probing sinks, one each. */
  ghost predicate Owned(flight: seq<Command>, sinks: seq<Sink>) {
    && (forall p :: 0 <= p < |flight| ==>
          && flight[p].listenerUid < |sinks|
          && Probing(sinks[flight[p].listenerUid].state)
          && flight[p] == ProbeOf(sinks[flight[p].listenerUid], flight[p].listenerUid))
    && (forall i :: 0 <= i < |sinks| && Probing(sinks[i].state) ==> ProbeOf(sinks[i], i) in flight)
    && (forall p, q :: 0 <= p < q < |flight| ==> flight[p].sequenceId != flight[q].sequenceId)
  }

  ghost predicate Inv(e: State) {
    && |e.gptp| == |e.sinks|
    && e.nextSeq < SEQUENCE_IDS
    && (forall i :: 0 <= i < |e.sinks| ==> Quiet(e.sinks[i]))
    && Exclusive(e.sinks)
    && Owned(e.flight, e.sinks)
  }

  // ---------------------------------------------------------------- ownership of the commands in flight

  /** A sink has at most one command in flight: two commands belong to two sinks. */
  lemma OneProbeEach(flight: seq<Command>, sinks: seq<Sink>, p: nat, q: nat)
    requires Owned(flight, sinks) && p < |flight| && q < |flight| && p != q
    ensures flight[p].listenerUid != flight[q].listenerUid
  {
    assert flight[if p < q then p else q].sequenceId != flight[if p < q then q else p].sequenceId;
  }

  ghost function Uids(flight: seq<Command>): (r: seq<nat>)
    ensures |r| == |flight|
  {
    seq(|flight|, p requires 0 <= p < |flight| => flight[p].listenerUid)
  }

  /** There are never more commands in flight than sinks. */
  lemma FlightBound(flight: seq<Command>, sinks: seq<Sink>)
    requires Owned(flight, sinks)
    ensures |flight| <= |sinks|
  {
    var uids := Uids(flight);
    forall p, q | 0 <= p < q < |uids| ensures uids[p] != uids[q] {
      OneProbeEach(flight, sinks, p, q);
    }
    NoDupCount(uids);
    assert forall k :: k in Elements(uids) ==> k in Below(|sinks|);
    SubsetSize(Elements(uids), Below(|sinks|));
  }

  lemma {:induction false} SubsetSize(a: set<nat>, b: set<nat>)
    requires a <= b
    ensures |a| <= |b|
    decreases |a|
  {
    if a != {} {
      var x :| x in a;
      SubsetSize(a - {x}, b - {x});
    }
  }

  /** A pool with one entry more than there are sinks always has one for the next probe. */
  lemma PoolSuffices(place: seq<Place>, free: seq<nat>, lists: seq<seq<nat>>, flight: seq<Command>, sinks: seq<Sink>)
    requires Placed(place, free, lists) && NothingHeld(place)
    requires |flight| == |lists[0]| && lists[1] == [] && lists[2] == []
    requires Owned(flight, sinks)
    requires |place| >= |sinks| + 1
    ensures free != []
  {
    Partition(place, free, lists);
    FlightBound(flight, sinks);
  }

  /** The position of a sink's probe, and what cancelling it does. */
  lemma CancelOwn(flight: seq<Command>, sinks: seq<Sink>, i: nat) returns (p: nat)
    requires Owned(flight, sinks) && i < |sinks| && Probing(sinks[i].state)
    ensures p < |flight| && flight[p] == ProbeOf(sinks[i], i)
    ensures RemoveFirst(flight, sinks[i].probeSeq) == flight[..p] + flight[p + 1..]
  {
    p :| 0 <= p < |flight| && flight[p] == ProbeOf(sinks[i], i);
    RemoveFirstAt(flight, sinks[i].probeSeq, p);
  }

  ghost function Without(flight: seq<Command>, p: nat): (rest: seq<Command>)
    requires p < |flight|
    ensures |rest| == |flight| - 1
    ensures forall q :: 0 <= q < |rest| ==> rest[q] == flight[Skip(p, q)]
  {
    flight[..p] + flight[p + 1..]
  }

  function Skip(p: nat, q: nat): nat {
    if q < p then q else q + 1
  }

  lemma WithoutKeepsOthers(flight: seq<Command>, p: nat, c: Command)
    requires p < |flight| && c in flight && c != flight[p]
    ensures c in Without(flight, p)
  {
    var q :| 0 <= q < |flight| && flight[q] == c;
    var q' := if q < p then q else q - 1;
    assert Without(flight, p)[q'] == flight[Skip(p, q')] == c;
  }

  lemma OwnedWithout(flight: seq<Command>, sinks: seq<Sink>, p: nat, i: nat, s: Sink)
    requires Owned(flight, sinks) && p < |flight| && flight[p].listenerUid == i && !Probing(s.state)
    ensures Owned(Without(flight, p), sinks[i := s])
  {
    var rest := Without(flight, p);
    forall q | 0 <= q < |rest| ensures rest[q].listenerUid != i {
      OneProbeEach(flight, sinks, p, Skip(p, q));
    }
    forall j | 0 <= j < |sinks| && j != i && Probing(sinks[j].state) ensures ProbeOf(sinks[j], j) in rest {
      WithoutKeepsOthers(flight, p, ProbeOf(sinks[j], j));
    }
  }

  /** A probe leaves with its sink. */
  lemma OwnedAfterCancel(flight: seq<Command>, sinks: seq<Sink>, i: nat, s: Sink)
    requires Owned(flight, sinks) && i < |sinks| && Probing(sinks[i].state) && !Probing(s.state)
    ensures Owned(RemoveFirst(flight, sinks[i].probeSeq), sinks[i := s])
  {
    var p := CancelOwn(flight, sinks, i);
    assert RemoveFirst(flight, sinks[i].probeSeq) == Without(flight, p);
    OwnedWithout(flight, sinks, p, i, s);
  }

  /** A probe joins with a fresh sequence id. */
  lemma OwnedAfterSend(flight: seq<Command>, sinks: seq<Sink>, i: nat, s: Sink)
    requires Owned(flight, sinks) && i < |sinks| && !Probing(sinks[i].state)
    requires Probing(s.state) && !InFlight(flight, s.probeSeq)
    ensures Owned([ProbeOf(s, i)] + flight, sinks[i := s])
  {
    var now := [ProbeOf(s, i)] + flight;
    assert forall q :: 1 <= q < |now| ==> now[q] == flight[q - 1] && now[q] in flight;
    forall q | 0 <= q < |flight| ensures flight[q].listenerUid != i {
    }
    forall j | 0 <= j < |sinks| && j != i && Probing(sinks[j].state) ensures ProbeOf(sinks[j], j) in now {
      assert ProbeOf(sinks[j], j) in flight;
    }
    assert now[0] == ProbeOf(s, i);
  }

  /** A change that leaves the probe of a sink alone leaves the commands in flight owned. */
  lemma OwnedFrame(flight: seq<Command>, sinks: seq<Sink>, i: nat, s: Sink)
    requires Owned(flight, sinks) && i < |sinks|
    requires Probing(s.state) == Probing(sinks[i].state)
    requires Probing(s.state) ==> ProbeOf(s, i) == ProbeOf(sinks[i], i)
    ensures Owned(flight, sinks[i := s])
  {
  }

  /** The second transmission of a probe is the first one marked as retried. */
  lemma OwnedAfterRetry(flight: seq<Command>, sinks: seq<Sink>, p: nat, i: nat, s: Sink)
    requires Owned(flight, sinks) && p < |flight| && flight[p].listenerUid == i && !flight[p].retried
    requires s == sinks[i].(state := PrbWResp2)
    ensures Owned(flight[p := flight[p].(retried := true)], sinks[i := s])
  {
    var now := flight[p := flight[p].(retried := true)];
    forall q | 0 <= q < |flight| && q != p ensures flight[q].listenerUid != i {
      OneProbeEach(flight, sinks, p, q);
    }
    forall j | 0 <= j < |sinks| && j != i && Probing(sinks[j].state) ensures ProbeOf(sinks[j], j) in now {
      var q :| 0 <= q < |flight| && flight[q] == ProbeOf(sinks[j], j);
      assert now[q] == flight[q];
    }
    assert now[p] == ProbeOf(s, i);
  }
}
