/**
 The connections of an IEEE 1722.1 talker (avdecc/acmp_ieee.c). Every talker stream has a slice of one shared array,
 with a slot for each listener it may be connected to, and a count of the slots in use. To a controller, a stream is a
 set of connected listeners.
 */
module TalkerTable {
  import opened WrapArithmetic

  const STAT_SUCCESS: nat := 0
  const STAT_TALKER_UNKNOWN_ID: nat := 2
  const STAT_NO_SUCH_CONNECTION: nat := 11
  const STAT_TALKER_MISBEHAVING: nat := 13
  const STAT_INCOMPATIBLE_REQUEST: nat := 17

  /** A listener: an entity and one of its stream sinks. */
  datatype Id = Id(entity: nat, uniqueId: nat)
  datatype Pair = Pair(id: Id, connected: bool)
  datatype SrClass = ClassA | ClassB
  datatype Msg = Declare | AvtpConnect | Withdraw | AvtpDisconnect

  // ---------------------------------------------------------------- a stream as a set of listeners

  datatype Stream = Stream(listeners: set<Id>, srClass: SrClass, log: seq<Msg>)

  /** What a stream output supports, and how many listeners it may have. */
  datatype Output = Output(classA: bool, classB: bool, max: nat)

  predicate Supports(o: Output, c: SrClass) {
    if c.ClassB? then o.classB else o.classA
  }

  function ConnectSpec(s: Stream, o: Output, id: Id, req: SrClass): (r: (Stream, nat)) {
    if id in s.listeners then (s, STAT_SUCCESS)
    else if |s.listeners| >= o.max then (s, STAT_TALKER_MISBEHAVING)
    else if !Supports(o, req) then (s, STAT_INCOMPATIBLE_REQUEST)
    else if s.listeners == {} then (Stream({id}, req, s.log + [Declare, AvtpConnect]), STAT_SUCCESS)
    else if req != s.srClass then (s, STAT_INCOMPATIBLE_REQUEST)
    else (s.(listeners := s.listeners + {id}), STAT_SUCCESS)
  }

  function Without(s: Stream, id: Id): (r: Stream)
    requires id in s.listeners
  {
    var rest := s.listeners - {id};
    s.(listeners := rest, log := s.log + if rest == {} then [Withdraw, AvtpDisconnect] else [])
  }

  function DisconnectSpec(s: Stream, id: Id): (r: (Stream, nat)) {
    if id in s.listeners then (Without(s, id), STAT_SUCCESS) else (s, STAT_NO_SUCH_CONNECTION)
  }

  /** Declared to SRP and streaming, or neither: declarations and withdrawals alternate. */
  predicate Open(log: seq<Msg>) {
    |log| >= 2 && log[|log| - 2..] == [Declare, AvtpConnect] && Closed(log[..|log| - 2])
  }

  predicate Closed(log: seq<Msg>) {
    log == [] || (|log| >= 2 && log[|log| - 2..] == [Withdraw, AvtpDisconnect] && Open(log[..|log| - 2]))
  }

  /** A stream streams exactly while somebody listens, and never to more listeners than it may have. */
  predicate StreamOk(s: Stream, o: Output) {
    && |s.listeners| <= o.max
    && (if s.listeners == {} then Closed(s.log) else Open(s.log) && Supports(o, s.srClass))
  }

  lemma ConnectKeeps(s: Stream, o: Output, id: Id, req: SrClass)
    requires StreamOk(s, o)
    ensures StreamOk(ConnectSpec(s, o, id, req).0, o)
    ensures ConnectSpec(s, o, id, req).1 == STAT_SUCCESS <==> id in ConnectSpec(s, o, id, req).0.listeners
  {
    var r := ConnectSpec(s, o, id, req).0;
    if s.listeners == {} && r != s {
      assert r.log[|r.log| - 2..] == [Declare, AvtpConnect] && r.log[..|r.log| - 2] == s.log;
    }
  }

  lemma WithoutKeeps(s: Stream, o: Output, id: Id)
    requires StreamOk(s, o) && id in s.listeners
    ensures StreamOk(Without(s, id), o)
  {
    var r := Without(s, id);
    if r.listeners == {} {
      assert r.log[|r.log| - 2..] == [Withdraw, AvtpDisconnect] && r.log[..|r.log| - 2] == s.log;
    } else {
      assert r.log == s.log;
    }
    CardinalityWithout(s.listeners, id);
  }

  lemma CardinalityWithout(s: set<Id>, id: Id)
    requires id in s
    ensures |s - {id}| == |s| - 1
  {
  }

  /** A listener that is connected stays so. A new one is connected exactly when there is room, the stream output has
    its class, and the stream runs with that class or does not run yet; the first one starts the stream. Of several
    reasons to refuse it, the lack of room is reported. */
  lemma ConnectOutcome(s: Stream, o: Output, id: Id, req: SrClass)
    requires StreamOk(s, o)
    ensures var (r, status) := ConnectSpec(s, o, id, req);
            var room, offered := |s.listeners| < o.max, if req == ClassA then o.classA else o.classB;
            var first := s.listeners == {};
            if id in s.listeners || (room && offered && (first || req == s.srClass)) then
              && status == 0 && r.listeners == s.listeners + {id}
              && r.srClass == (if first then req else s.srClass)
              && r.log == s.log + if first then [Declare, AvtpConnect] else []
            else r == s && status == if room then 17 else 13
  {
    assert s.log + [] == s.log;
    assert id in s.listeners ==> s.listeners + {id} == s.listeners;
  }

  /** Only the listener named leaves, and the last one that leaves ends the stream. */
  lemma DisconnectOutcome(s: Stream, id: Id)
    ensures var (r, status) := DisconnectSpec(s, id);
            && id !in r.listeners
            && (id !in s.listeners ==> r == s && status == 11)
            && (id in s.listeners ==>
                  && status == 0 && r.listeners + {id} == s.listeners && r.srClass == s.srClass
                  && r.log == s.log + if s.listeners == {id} then [Withdraw, AvtpDisconnect] else [])
  {
  }

  /** Connecting and disconnecting undo each other. */
  lemma DisconnectUndoesConnect(s: Stream, o: Output, id: Id, req: SrClass)
    requires StreamOk(s, o) && id !in s.listeners
    ensures var r := ConnectSpec(s, o, id, req);
            r.1 == STAT_SUCCESS ==>
              && DisconnectSpec(r.0, id).1 == STAT_SUCCESS
              && DisconnectSpec(r.0, id).0.listeners == s.listeners
              && (s.listeners != {} ==> DisconnectSpec(r.0, id).0 == s)
  {
    var r := ConnectSpec(s, o, id, req);
    if r.1 == STAT_SUCCESS {
      assert r.0.listeners - {id} == s.listeners;
      assert s.log + [] == s.log;
    }
  }

  // ---------------------------------------------------------------- slices of the array

  function Listeners(slice: seq<Pair>): (ids: set<Id>) {
    set j | 0 <= j < |slice| && slice[j].connected :: slice[j].id
  }

  function Count(slice: seq<Pair>): (n: nat)
    ensures n <= |slice|
  {
    if slice == [] then 0
    else Count(slice[..|slice| - 1]) + if slice[|slice| - 1].connected then 1 else 0
  }

  predicate Distinct(slice: seq<Pair>) {
    forall i, j :: 0 <= i < j < |slice| && slice[i].connected && slice[j].connected ==> slice[i].id != slice[j].id
  }

  lemma {:induction false} CountIsCardinality(slice: seq<Pair>)
    requires Distinct(slice)
    ensures Count(slice) == |Listeners(slice)|
  {
    if slice != [] {
      var n := |slice| - 1;
      var front := slice[..n];
      CountIsCardinality(front);
      if slice[n].connected {
        assert slice[n].id !in Listeners(front);
        assert Listeners(slice) == Listeners(front) + {slice[n].id};
      } else {
        assert Listeners(slice) == Listeners(front);
      }
    }
  }

  lemma {:induction false} CountUpdate(slice: seq<Pair>, j: nat, p: Pair)
    requires j < |slice|
    ensures Count(slice[j := p]) ==
            Count(slice) - (if slice[j].connected then 1 else 0) + (if p.connected then 1 else 0)
  {
    var n := |slice| - 1;
    if j < n {
      CountUpdate(slice[..n], j, p);
      assert slice[j := p][..n] == slice[..n][j := p];
    } else {
      assert slice[j := p][..n] == slice[..n];
    }
  }

  /** A slot is free exactly when the count says so. */
  lemma {:induction false} CountFull(slice: seq<Pair>)
    ensures Count(slice) == |slice| <==> forall j :: 0 <= j < |slice| ==> slice[j].connected
  {
    if slice != [] { CountFull(slice[..|slice| - 1]); }
  }

  lemma ConnectSlot(slice: seq<Pair>, j: nat, id: Id)
    requires j < |slice| && !slice[j].connected && Distinct(slice) && id !in Listeners(slice)
    ensures var s := slice[j := Pair(id, true)];
            Distinct(s) && Listeners(s) == Listeners(slice) + {id} && Count(s) == Count(slice) + 1
  {
    var s := slice[j := Pair(id, true)];
    CountUpdate(slice, j, Pair(id, true));
    forall i | 0 <= i < |slice| && slice[i].connected ensures slice[i].id != id && slice[i].id in Listeners(slice) {
    }
    assert s[j].id in Listeners(s);
    forall x | x in Listeners(slice) ensures x in Listeners(s) {
      var i :| 0 <= i < |slice| && slice[i].connected && slice[i].id == x;
      assert s[i] == slice[i];
    }
  }

  lemma DisconnectSlot(slice: seq<Pair>, j: nat)
    requires j < |slice| && slice[j].connected && Distinct(slice)
    ensures var s := slice[j := slice[j].(connected := false)];
            Distinct(s) && Listeners(s) == Listeners(slice) - {slice[j].id} && Count(s) == Count(slice) - 1
  {
    var s := slice[j := slice[j].(connected := false)];
    CountUpdate(slice, j, slice[j].(connected := false));
    forall x | x in Listeners(slice) - {slice[j].id} ensures x in Listeners(s) {
      var i :| 0 <= i < |slice| && slice[i].connected && slice[i].id == x;
      assert s[i] == slice[i];
    }
  }
}
