/**
 The IEEE 1722.1 talker on its shared array of listener pairs (avdecc/acmp_ieee.c). Each command is proved against the
 set of listeners of module TalkerTable; no command touches the slice of another talker stream.
 */
module IeeeTalker {
  import opened WrapArithmetic
  import opened TalkerTable

  function Base(t: nat, max: nat): (b: nat) {
    t * max
  }

  /** Slices follow each other from the start of the array on, without overlap or gap. */
  lemma Slices(t: nat, u: nat, max: nat)
    ensures t < u ==> Base(t, max) + max <= Base(u, max)
    ensures u == t + 1 ==> Base(t, max) + max == Base(u, max)
    ensures Base(0, max) == 0
  {
    MulLess(t, u, max);
  }

  /** The slice of stream `t`, of `n` streams. */
  function SliceOf(all: seq<Pair>, t: nat, n: nat, max: nat): (slice: seq<Pair>)
    requires t < n && |all| == Base(n, max)
    ensures |slice| == max
    ensures forall j :: 0 <= j < max ==> Base(t, max) + j < |all| && slice[j] == all[Base(t, max) + j]
  {
    Slices(t, n, max);
    all[Base(t, max)..Base(t, max) + max]
  }

  lemma SliceUpdate(all: seq<Pair>, t: nat, n: nat, max: nat, j: nat, p: Pair)
    requires t < n && |all| == Base(n, max) && j < max
    ensures Base(t, max) + j < |all|
    ensures SliceOf(all[Base(t, max) + j := p], t, n, max) == SliceOf(all, t, n, max)[j := p]
    ensures forall u :: 0 <= u < n && u != t ==>
              SliceOf(all[Base(t, max) + j := p], u, n, max) == SliceOf(all, u, n, max)
  {
    Slices(t, n, max);
    forall u | 0 <= u < n && u != t
      ensures SliceOf(all[Base(t, max) + j := p], u, n, max) == SliceOf(all, u, n, max)
    {
      Slices(t, u, max);
      Slices(u, t, max);
    }
  }

  /** One talker stream: its slice of the array and what is kept with it. */
  datatype Row = Row(slice: seq<Pair>, count: nat, srClass: SrClass, log: seq<Msg>)

  function StreamOf(r: Row): (s: Stream) {
    Stream(Listeners(r.slice), r.srClass, r.log)
  }

  ghost predicate RowOk(r: Row, o: Output) {
    && |r.slice| == o.max
    && Distinct(r.slice) && r.count == Count(r.slice)
    && StreamOk(StreamOf(r), o)
  }

  /** The row after a new listener took a free slot. */
  function ConnectedRow(r: Row, slot: nat, id: Id, req: SrClass): (s: Row)
    requires slot < |r.slice|
  {
    var first := r.count == 0;
    Row(r.slice[slot := Pair(id, true)], r.count + 1, if first then req else r.srClass,
        if first then r.log + [Declare, AvtpConnect] else r.log)
  }

  /** The three outcomes of a connection: no slot, the wrong class, or a new listener. */
  lemma RowFull(r: Row, o: Output, id: Id, req: SrClass)
    requires RowOk(r, o) && id !in Listeners(r.slice) && r.count >= o.max
    ensures ConnectSpec(StreamOf(r), o, id, req) == (StreamOf(r), STAT_TALKER_MISBEHAVING)
  {
    CountIsCardinality(r.slice);
  }

  lemma RowRefuses(r: Row, o: Output, id: Id, req: SrClass)
    requires RowOk(r, o) && id !in Listeners(r.slice) && r.count < o.max
    requires !Supports(o, req) || (r.count > 0 && req != r.srClass)
    ensures ConnectSpec(StreamOf(r), o, id, req) == (StreamOf(r), STAT_INCOMPATIBLE_REQUEST)
  {
    CountIsCardinality(r.slice);
  }

  lemma RowConnected(r: Row, o: Output, slot: nat, id: Id, req: SrClass)
    requires RowOk(r, o) && id !in Listeners(r.slice) && r.count < o.max
    requires Supports(o, req) && (r.count > 0 ==> req == r.srClass)
    requires slot < |r.slice| && !r.slice[slot].connected
    ensures RowOk(ConnectedRow(r, slot, id, req), o)
    ensures ConnectSpec(StreamOf(r), o, id, req) == (StreamOf(ConnectedRow(r, slot, id, req)), STAT_SUCCESS)
  {
    CountIsCardinality(r.slice);
    ConnectSlot(r.slice, slot, id);
    NewListener(r, slot, id, req);
    ConnectKeeps(StreamOf(r), o, id, req);
    assert ConnectSpec(StreamOf(r), o, id, req).0 == StreamOf(ConnectedRow(r, slot, id, req));
  }

  lemma NewListener(r: Row, slot: nat, id: Id, req: SrClass)
    requires slot < |r.slice|
    requires Listeners(r.slice[slot := Pair(id, true)]) == Listeners(r.slice) + {id}
    requires r.count == |Listeners(r.slice)|
    ensures StreamOf(ConnectedRow(r, slot, id, req)) ==
            if Listeners(r.slice) == {} then Stream({id}, req, r.log + [Declare, AvtpConnect])
            else StreamOf(r).(listeners := Listeners(r.slice) + {id})
  {
  }

  function DisconnectedRow(r: Row, slot: nat): (s: Row)
    requires slot < |r.slice| && r.count > 0
  {
    Row(r.slice[slot := r.slice[slot].(connected := false)], r.count - 1, r.srClass,
        if r.count == 1 then r.log + [Withdraw, AvtpDisconnect] else r.log)
  }

  lemma RowDisconnected(r: Row, o: Output, slot: nat)
    requires RowOk(r, o) && slot < |r.slice| && r.slice[slot].connected
    ensures r.count > 0 && RowOk(DisconnectedRow(r, slot), o)
    ensures StreamOf(DisconnectedRow(r, slot)) == Without(StreamOf(r), r.slice[slot].id)
  {
    var id := r.slice[slot].id;
    CountIsCardinality(r.slice);
    DisconnectSlot(r.slice, slot);
    WithoutKeeps(StreamOf(r), o, id);
    CardinalityWithout(Listeners(r.slice), id);
    CountIsCardinality(DisconnectedRow(r, slot).slice);
    assert r.log + [] == r.log;
  }

  /** All listeners have left; a stream that had some has ended, once. */
  predicate Emptied(s: Stream, r: Stream) {
    && r.listeners == {} && r.srClass == s.srClass
    && r.log == s.log + if s.listeners == {} then [] else [Withdraw, AvtpDisconnect]
  }

  /** Some listeners have left. */
  predicate Leaving(s: Stream, r: Stream) {
    && r.listeners <= s.listeners && r.srClass == s.srClass
    && r.log == s.log + if r.listeners == {} && s.listeners != {} then [Withdraw, AvtpDisconnect] else []
  }

  lemma AllStay(s: Stream)
    ensures Leaving(s, s)
  {
  }

  lemma OneMoreLeaves(s: Stream, r: Stream, id: Id)
    requires Leaving(s, r) && id in r.listeners
    ensures Leaving(s, Without(r, id))
  {
  }

  lemma AllLeft(s: Stream, r: Stream)
    requires Leaving(s, r) && r.listeners == {}
    ensures Emptied(s, r)
  {
  }

  class Talkers {
    const outputs: seq<Output>
    const maxPairs: nat
    const pairs: array<Pair>
    const counts: array<nat>
    const classes: array<SrClass>
    ghost var logs: seq<seq<Msg>>

    ghost predicate Wf()
      reads this
    {
      && counts.Length == classes.Length == |outputs| == |logs|
      && pairs.Length == Base(|outputs|, maxPairs)
      && forall t :: 0 <= t < |outputs| ==> outputs[t].max == maxPairs
    }

    ghost function RowAt(t: nat): (r: Row)
      requires Wf() && t < |outputs|
      reads this, pairs, counts, classes
      ensures |r.slice| == maxPairs
    {
      Row(SliceOf(pairs[..], t, |outputs|, maxPairs), counts[t], classes[t], logs[t])
    }

    ghost predicate Valid()
      reads this, pairs, counts, classes
    {
      Wf() && forall t :: 0 <= t < |outputs| ==> RowOk(RowAt(t), outputs[t])
    }

    ghost function StreamAt(t: nat): (s: Stream)
      requires Wf() && t < |outputs|
      reads this, pairs, counts, classes
    {
      StreamOf(RowAt(t))
    }

    // -------------------------------------------------------------- writing one row

    method SetSlot(t: nat, j: nat, p: Pair)
      requires Wf() && t < |outputs| && j < maxPairs
      modifies pairs
      ensures RowAt(t) == old(RowAt(t)).(slice := old(RowAt(t)).slice[j := p])
      ensures forall u :: 0 <= u < |outputs| && u != t ==> RowAt(u) == old(RowAt(u))
    {
      ghost var was := pairs[..];
      SliceUpdate(was, t, |outputs|, maxPairs, j, p);
      pairs[Base(t, maxPairs) + j] := p;
      assert pairs[..] == was[Base(t, maxPairs) + j := p];
    }

    method SetCount(t: nat, n: nat)
      requires Wf() && t < |outputs|
      modifies counts
      ensures RowAt(t) == old(RowAt(t)).(count := n)
      ensures forall u :: 0 <= u < |outputs| && u != t ==> RowAt(u) == old(RowAt(u))
    {
      counts[t] := n;
    }

    method SetClass(t: nat, c: SrClass)
      requires Wf() && t < |outputs|
      modifies classes
      ensures RowAt(t) == old(RowAt(t)).(srClass := c)
      ensures forall u :: 0 <= u < |outputs| && u != t ==> RowAt(u) == old(RowAt(u))
    {
      classes[t] := c;
    }

    ghost method Log(t: nat, msgs: seq<Msg>)
      requires Wf() && t < |outputs|
      modifies `logs
      ensures Wf() && RowAt(t) == old(RowAt(t)).(log := old(RowAt(t)).log + msgs)
      ensures forall u :: 0 <= u < |outputs| && u != t ==> RowAt(u) == old(RowAt(u))
    {
      logs := logs[t := logs[t] + msgs];
    }

    // -------------------------------------------------------------- scanning a slice

    /** The slot of a connected listener, or -1. */
    method ConnectedTo(t: nat, id: Id) returns (slot: int)
      requires Wf() && t < |outputs|
      ensures -1 <= slot < maxPairs
      ensures slot >= 0 ==> RowAt(t).slice[slot] == Pair(id, true)
      ensures slot < 0 <==> id !in Listeners(RowAt(t).slice)
    {
      Slices(t, |outputs|, maxPairs);
      ghost var slice := RowAt(t).slice;
      for j := 0 to maxPairs
        invariant forall k :: 0 <= k < j ==> !(slice[k].connected && slice[k].id == id)
      {
        var p := pairs[Base(t, maxPairs) + j];
        assert p == slice[j];
        if p.connected && p.id == id {
          return j;
        }
      }
      return -1;
    }

    /** A free slot; there is one exactly while the count is below the maximum. */
    method GetFreeListener(t: nat) returns (slot: int)
      requires Wf() && t < |outputs| && RowOk(RowAt(t), outputs[t])
      ensures -1 <= slot < maxPairs
      ensures slot >= 0 ==> !RowAt(t).slice[slot].connected
      ensures slot < 0 <==> counts[t] >= maxPairs
    {
      if counts[t] >= maxPairs {
        return -1;
      }
      Slices(t, |outputs|, maxPairs);
      ghost var slice := RowAt(t).slice;
      CountFull(slice);
      for j := 0 to maxPairs
        invariant forall k :: 0 <= k < j ==> slice[k].connected
      {
        var p := pairs[Base(t, maxPairs) + j];
        assert p == slice[j];
        if !p.connected {
          return j;
        }
      }
      return -1;
    }

    // -------------------------------------------------------------- commands

    constructor (outputs: seq<Output>, maxPairs: nat)
      requires forall t :: 0 <= t < |outputs| ==> outputs[t].max == maxPairs
      ensures Valid() && fresh(pairs) && fresh(counts) && fresh(classes)
      ensures this.outputs == outputs && forall t :: 0 <= t < |outputs| ==> StreamAt(t).listeners == {}
    {
      this.outputs, this.maxPairs := outputs, maxPairs;
      pairs := new Pair[Base(|outputs|, maxPairs)](_ => Pair(Id(0, 0), false));
      counts := new nat[|outputs|](_ => 0);
      classes := new SrClass[|outputs|](_ => ClassA);
      logs := seq(|outputs|, _ => []);
      new;
      forall t | 0 <= t < |outputs| ensures RowOk(RowAt(t), outputs[t]) && Listeners(RowAt(t).slice) == {} {
        Slices(t, |outputs|, maxPairs);
        NoneConnected(RowAt(t).slice);
      }
    }

    method Connect(t: nat, id: Id, req: SrClass) returns (status: nat)
      requires Valid() && t < |outputs| && id !in StreamAt(t).listeners
      modifies this, pairs, counts, classes
      ensures Valid()
      ensures forall u :: 0 <= u < |outputs| && u != t ==> RowAt(u) == old(RowAt(u))
      ensures (StreamAt(t), status) == ConnectSpec(old(StreamAt(t)), outputs[t], id, req)
    {
      ghost var was := RowAt(t);
      var slot := GetFreeListener(t);
      if slot < 0 {
        RowFull(was, outputs[t], id, req);
        return STAT_TALKER_MISBEHAVING;
      }
      if !Supports(outputs[t], req) {
        RowRefuses(was, outputs[t], id, req);
        return STAT_INCOMPATIBLE_REQUEST;
      }
      if counts[t] != 0 && req != classes[t] {
        RowRefuses(was, outputs[t], id, req);
        return STAT_INCOMPATIBLE_REQUEST;
      }
      RowConnected(was, outputs[t], slot, id, req);
      EnterListener(t, slot, id, req);
      status := STAT_SUCCESS;
    }

    /** The first listener starts the stream. */
    method EnterListener(t: nat, slot: nat, id: Id, req: SrClass)
      requires Wf() && t < |outputs| && slot < maxPairs
      modifies this, pairs, counts, classes
      ensures Wf() && RowAt(t) == ConnectedRow(old(RowAt(t)), slot, id, req)
      ensures forall u :: 0 <= u < |outputs| && u != t ==> RowAt(u) == old(RowAt(u))
    {
      if counts[t] == 0 {
        SetClass(t, req);
        Log(t, [Declare, AvtpConnect]);
      }
      SetSlot(t, slot, Pair(id, true));
      SetCount(t, counts[t] + 1);
    }

    method Disconnect(t: nat, slot: nat)
      requires Valid() && t < |outputs| && slot < maxPairs && RowAt(t).slice[slot].connected
      modifies this, pairs, counts, classes
      ensures Valid()
      ensures forall u :: 0 <= u < |outputs| && u != t ==> RowAt(u) == old(RowAt(u))
      ensures StreamAt(t) == Without(old(StreamAt(t)), old(RowAt(t).slice[slot].id))
      ensures RowAt(t).slice == old(RowAt(t).slice)[slot := old(RowAt(t).slice[slot]).(connected := false)]
    {
      RowDisconnected(RowAt(t), outputs[t], slot);
      RemoveListener(t, slot);
    }

    /** The last listener ends the stream. */
    method RemoveListener(t: nat, slot: nat)
      requires Wf() && t < |outputs| && slot < maxPairs && counts[t] > 0
      modifies this, pairs, counts, classes
      ensures Wf() && RowAt(t) == DisconnectedRow(old(RowAt(t)), slot)
      ensures forall u :: 0 <= u < |outputs| && u != t ==> RowAt(u) == old(RowAt(u))
    {
      Slices(t, |outputs|, maxPairs);
      SetSlot(t, slot, pairs[Base(t, maxPairs) + slot].(connected := false));
      SetCount(t, counts[t] - 1);
      if counts[t] == 0 {
        Log(t, [Withdraw, AvtpDisconnect]);
      }
    }

    /** CONNECT_TX_COMMAND. */
    method ConnectTx(t: nat, id: Id, req: SrClass) returns (status: nat)
      requires Valid()
      modifies this, pairs, counts, classes
      ensures Valid()
      ensures forall u :: 0 <= u < |outputs| && u != t ==> RowAt(u) == old(RowAt(u))
      ensures t >= |outputs| ==> status == STAT_TALKER_UNKNOWN_ID
      ensures t < |outputs| ==> (StreamAt(t), status) == ConnectSpec(old(StreamAt(t)), outputs[t], id, req)
    {
      if t >= |outputs| {
        return STAT_TALKER_UNKNOWN_ID;
      }
      var slot := ConnectedTo(t, id);
      if slot < 0 {
        status := Connect(t, id, req);
      } else {
        status := STAT_SUCCESS;
      }
    }

    /** DISCONNECT_TX_COMMAND. */
    method DisconnectTx(t: nat, id: Id) returns (status: nat)
      requires Valid()
      modifies this, pairs, counts, classes
      ensures Valid()
      ensures forall u :: 0 <= u < |outputs| && u != t ==> RowAt(u) == old(RowAt(u))
      ensures t >= |outputs| ==> status == STAT_TALKER_UNKNOWN_ID
      ensures t < |outputs| ==> (StreamAt(t), status) == DisconnectSpec(old(StreamAt(t)), id)
    {
      if t >= |outputs| {
        return STAT_TALKER_UNKNOWN_ID;
      }
      var slot := ConnectedTo(t, id);
      if slot >= 0 {
        Disconnect(t, slot);
        status := STAT_SUCCESS;
      } else {
        status := STAT_NO_SUCH_CONNECTION;
      }
    }

    /** GET_TX_CONNECTION_COMMAND: the listener in a given slot. */
    method GetTxConnection(t: nat, index: nat) returns (status: nat, id: Id)
      requires Valid()
      ensures t >= |outputs| ==> status == STAT_TALKER_UNKNOWN_ID
      ensures t < |outputs| ==> status == STAT_SUCCESS || status == STAT_NO_SUCH_CONNECTION
      ensures status == STAT_SUCCESS <==> t < |outputs| && index < maxPairs && RowAt(t).slice[index].connected
      ensures status == STAT_SUCCESS ==> id == RowAt(t).slice[index].id && id in StreamAt(t).listeners
    {
      id := Id(0, 0);
      if t >= |outputs| {
        return STAT_TALKER_UNKNOWN_ID, id;
      }
      Slices(t, |outputs|, maxPairs);
      if index >= maxPairs || !pairs[Base(t, maxPairs) + index].connected {
        return STAT_NO_SUCH_CONNECTION, id;
      }
      assert RowAt(t).slice[index] == pairs[Base(t, maxPairs) + index];
      return STAT_SUCCESS, pairs[Base(t, maxPairs) + index].id;
    }

    /** Empties the table of one talker stream. */
    method DisconnectAll(t: nat)
      requires Valid() && t < |outputs|
      modifies this, pairs, counts, classes
      ensures Valid() && StreamAt(t).listeners == {} && counts[t] == 0
      ensures Emptied(old(StreamAt(t)), StreamAt(t))
      ensures forall u :: 0 <= u < |outputs| && u != t ==> RowAt(u) == old(RowAt(u))
    {
      hide Leaving, Without, StreamOk, Distinct, Count;
      AllStay(StreamAt(t));
      Slices(t, |outputs|, maxPairs);
      for j := 0 to maxPairs
        invariant Valid()
        invariant forall k :: 0 <= k < j ==> !RowAt(t).slice[k].connected
        invariant Leaving(old(StreamAt(t)), StreamAt(t))
        invariant forall u :: 0 <= u < |outputs| && u != t ==> RowAt(u) == old(RowAt(u))
      {
        assert RowAt(t).slice[j] == pairs[Base(t, maxPairs) + j];
        if pairs[Base(t, maxPairs) + j].connected {
          OneMoreLeaves(old(StreamAt(t)), StreamAt(t), RowAt(t).slice[j].id);
          Disconnect(t, j);
        }
      }
      NoneConnected(RowAt(t).slice);
      AllLeft(old(StreamAt(t)), StreamAt(t));
    }

    /** On exit, no stream has a listener left and none is declared or streams. */
    method LocalDisconnect()
      requires Valid()
      modifies this, pairs, counts, classes
      ensures Valid()
      ensures forall t :: 0 <= t < |outputs| ==>
                && StreamAt(t).listeners == {} && counts[t] == 0 && Closed(StreamAt(t).log)
                && Emptied(old(StreamAt(t)), StreamAt(t))
    {
      for t := 0 to |outputs|
        invariant Valid()
        invariant forall u :: 0 <= u < t ==> RowAt(u).count == 0 && Emptied(old(StreamAt(u)), StreamAt(u))
        invariant forall u :: t <= u < |outputs| ==> RowAt(u) == old(RowAt(u))
      {
        DisconnectAll(t);
      }
    }
  }

  lemma {:induction false} NoneConnected(slice: seq<Pair>)
    requires forall j :: 0 <= j < |slice| ==> !slice[j].connected
    ensures Count(slice) == 0 && Listeners(slice) == {}
  {
    if slice != [] { NoneConnected(slice[..|slice| - 1]); }
  }
}
