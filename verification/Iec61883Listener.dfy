/**
 The IEC 61883-6 listener (avtp/61883_iidc.c). It tells the media stack which frame of a packet a timestamp
 belongs to. It knows only the 8-bit block counter of the packet and a counter of its own, and packets may have
 been lost, repeated or reordered on the way.
 */
module Iec61883Listener {
  import opened Options
  import opened Sequences
  import opened WrapArithmetic
  import opened SytPlacement

  datatype Evt = Am824 | Floating | Int32 | Packed | ReservedEvt

  /** A packet as received: the header fields the listener looks at, and whether the network flagged a media clock
    restart, a loss or an uncertain timestamp. */
  datatype Rx = Rx(cipIncluded: bool, sourcePackets: bool, qpc: nat, fmt6: bool, noData: bool, evt: Evt,
                   dbs: nat, dbc: nat, alarm: bool, stamp: Option<nat>, payload: seq<nat>)

  /** A timestamp handed to the media stack, at a byte offset in the payload. */
  datatype Mark = Invalid | At(offset: nat, value: nat)
  datatype MediaDesc = MediaDesc(payload: seq<nat>, alarm: bool, marks: seq<Mark>)

  predicate WellFormed(p: Rx) {
    && p.cipIncluded && !p.sourcePackets && p.qpc == 0 && p.fmt6 && !p.noData
    && (p.evt.Am824? || p.evt.Floating? || p.evt.Int32?)
  }

  // ---------------------------------------------------------------- the stateless specification

  /** The listener's counter has 8 bits, so it cannot tell apart longer intervals than 256. */
  function Unit(s: nat): (u: nat) {
    if s < 256 then s else 256
  }

  /** How far ahead of the first frame of a packet the next frame with a timestamp is. */
  function Ahead(dbc: nat, s: nat): (frames: nat)
    requires s > 0
  {
    (0 - dbc) % Unit(s)
  }

  /** Offsets are 16-bit numbers of bytes; a frame has `dbs` quadlets. */
  function Offset(frames: nat, dbs: nat): (bytes: nat) {
    frames * dbs * 4 % 0x1_0000
  }

  function MediaOf(p: Rx, s: nat): (d: MediaDesc)
    requires s > 0
  {
    MediaDesc(p.payload, p.alarm,
              if p.stamp.Some? then [At(Offset(Ahead(p.dbc, s), p.dbs), p.stamp.value)]
              else if p.alarm then [Invalid]
              else [])
  }

  /** What the media stack gets from a batch: every well-formed packet, each with the timestamp its own block
    counter places, whatever came before. */
  function MediaOfBatch(packets: seq<Rx>, s: nat): (media: seq<MediaDesc>)
    requires s > 0
  {
    if packets == [] then []
    else
      var last := packets[|packets| - 1];
      MediaOfBatch(packets[..|packets| - 1], s) + if WellFormed(last) then [MediaOf(last, s)] else []
  }

  lemma {:induction false} BatchJoins(a: seq<Rx>, b: seq<Rx>, s: nat)
    requires s > 0
    ensures MediaOfBatch(a + b, s) == MediaOfBatch(a, s) + MediaOfBatch(b, s)
  {
    hide WellFormed, MediaOf;
    if b == [] {
      assert a + b == a;
    } else {
      var front, last := b[..|b| - 1], b[|b| - 1];
      BatchJoins(a, front, s);
      assert (a + b)[..|a| + |b| - 1] == a + front;
      Assoc(MediaOfBatch(a, s), MediaOfBatch(front, s), if WellFormed(last) then [MediaOf(last, s)] else []);
    }
  }

  /** What the media stack gets of a packet, whatever came with it: nothing unless it is an isochronous packet of format
    6 with data in one of three event types, and otherwise its payload, its alarm, and its timestamp or a mark for the
    one that is uncertain. */
  lemma DeliveredExactly(a: seq<Rx>, p: Rx, b: seq<Rx>, s: nat)
    requires s > 0
    ensures var wanted := p.cipIncluded && !p.sourcePackets && p.qpc == 0 && p.fmt6 && !p.noData
                          && p.evt in {Am824, Floating, Int32};
            var media := MediaOfBatch(a + [p] + b, s);
            && |media| == |MediaOfBatch(a, s)| + (if wanted then 1 else 0) + |MediaOfBatch(b, s)|
            && MediaOfBatch(a, s) <= media
            && media[|media| - |MediaOfBatch(b, s)|..] == MediaOfBatch(b, s)
            && (wanted ==>
                  var d := media[|MediaOfBatch(a, s)|];
                  && d.payload == p.payload && d.alarm == p.alarm
                  && (p.stamp.None? ==> d.marks == if p.alarm then [Invalid] else [])
                  && (p.stamp.Some? ==> |d.marks| == 1 && d.marks[0].At? && d.marks[0].value == p.stamp.value))
  {
    BatchJoins(a + [p], b, s);
    BatchJoins(a, [p], s);
    assert [p][..0] == [];
    assert MediaOfBatch([], s) == [];
    assert MediaOfBatch([p], s) == if WellFormed(p) then [MediaOf(p, s)] else [];
  }

  // ---------------------------------------------------------------- the listener

  predicate IsInterval(s: nat) {
    s > 0 && (256 % s == 0 || s % 256 == 0)
  }

  lemma PowersAreIntervals(n: nat)
    ensures IsInterval(Pow2(n))
  {
    Pow2Of8();
    if n <= 8 { Pow2Multiple(n, 8); } else { Pow2Multiple(8, n); }
  }

  lemma Pow2Of8()
    ensures Pow2(8) == 256 && Pow2(7) == 128
  {
    assert Pow2(4) == 2 * Pow2(3) == 4 * Pow2(2);
    assert Pow2(8) == 2 * Pow2(7) == 4 * Pow2(6) == 8 * Pow2(5) == 16 * Pow2(4);
  }

  /** Resynchronisation of the counter with a block counter that is not behind it by less than the interval. */
  function Resynced(syt: nat, dbc: nat, s: nat): (r: nat)
    requires s > 0
  {
    if (syt - dbc) % 256 >= s then (dbc + (s - dbc % s) % s) % 256 else syt
  }

  /** The stateful 8-bit counter agrees with the stateless formula, and stays aligned. */
  lemma CounterIsStateless(syt: nat, dbc: nat, s: nat)
    requires IsInterval(s) && syt < 256 && syt % Unit(s) == 0 && dbc < 256
    ensures var r := Resynced(syt, dbc, s);
            r < 256 && r % Unit(s) == 0 && (r - dbc) % 256 == Ahead(dbc, s)
  {
    if s < 256 {
      AlignedDistance(syt, dbc, s);
      if (syt - dbc) % 256 >= s { ResyncTarget(dbc, s); }
    }
  }

  lemma ResyncTarget(dbc: nat, s: nat)
    requires 0 < s < 256 && 256 % s == 0
    ensures var r := (dbc + (s - dbc % s) % s) % 256;
            r % s == 0 && (r - dbc) % 256 == (0 - dbc) % s
  {
    var o := (0 - dbc) % s;
    assert (s - dbc % s) % s == o by {
      WrapsRight(s, dbc, s);
      ModShift(0 - dbc, s, 1);
    }
    assert ((dbc + o) % 256 - dbc) % 256 == o by {
      WrapsLeft(dbc + o, 0 - dbc, 256);
      DivIs(o, 256, 0);
    }
    assert (dbc + o) % s == 0 by {
      SelfCancels(dbc, s);
      WrapsLeft(0 - dbc, dbc, s);
    }
    ModOfMod(dbc + o, 256, s);
  }

  lemma SelfCancels(dbc: nat, s: nat)
    requires s > 0
    ensures (0 - dbc + dbc) % s == 0
  {
    DivIs(0, s, 0);
  }

  lemma AlignedDistance(syt: nat, dbc: nat, s: nat)
    requires s > 0 && 256 % s == 0 && syt % s == 0
    ensures (syt - dbc) % 256 % s == (0 - dbc) % s
    ensures (syt - dbc) % 256 < s ==> (syt - dbc) % 256 == (0 - dbc) % s
  {
    ModOfMod(syt - dbc, 256, s);
    WrapsLeft(syt, 0 - dbc, s);
    if (syt - dbc) % 256 < s { DivIs((syt - dbc) % 256, s, 0); }
  }

  lemma StepKeepsAligned(syt: nat, s: nat)
    requires IsInterval(s) && syt % Unit(s) == 0
    ensures (syt + s) % 256 % Unit(s) == 0
  {
    if s < 256 {
      ModOfMod(syt + s, 256, s);
      ModShift(syt, s, 1);
    } else {
      WrapsLeft(syt, s, 256);
    }
  }

  class Listener {
    const interval: nat
    var sytCount: nat

    ghost predicate Valid()
      reads this
    {
      IsInterval(interval) && sytCount < 256 && sytCount % Unit(interval) == 0
    }

    constructor (framesPerPacket: nat)
      ensures Valid()
      ensures exists n :: IsSytIntervalLn2(n, framesPerPacket) && interval == Pow2(n)
    {
      var n := SytPlacement.SytIntervalLn2(framesPerPacket);
      interval, sytCount := Pow2(n), 0;
      PowersAreIntervals(n);
    }

    /** One packet: its media, if it is well formed. */
    method Receive(p: Rx) returns (media: seq<MediaDesc>)
      requires Valid() && p.dbc < 256
      modifies this
      ensures Valid()
      ensures media == if WellFormed(p) then [MediaOf(p, interval)] else []
    {
      media := [];
      if !p.cipIncluded || p.sourcePackets || p.qpc != 0 || !p.fmt6 || p.noData {
        return;
      }
      CounterIsStateless(sytCount, p.dbc, interval);
      if (sytCount - p.dbc) % 256 >= interval {
        sytCount := (p.dbc + (interval - p.dbc % interval) % interval) % 256;
      }
      if !(p.evt.Am824? || p.evt.Floating? || p.evt.Int32?) {
        return;
      }
      if p.stamp.None? {
        media := [MediaDesc(p.payload, p.alarm, if p.alarm then [Invalid] else [])];
      } else {
        var mark := At(Offset((sytCount - p.dbc) % 256, p.dbs), p.stamp.value);
        media := [MediaDesc(p.payload, p.alarm, [mark])];
        StepKeepsAligned(sytCount, interval);
        sytCount := (sytCount + interval) % 256;
      }
    }

    method NetRx(packets: seq<Rx>) returns (media: seq<MediaDesc>)
      requires Valid() && forall i :: 0 <= i < |packets| ==> packets[i].dbc < 256
      modifies this
      ensures Valid()
      ensures media == MediaOfBatch(packets, interval)
    {
      media := [];
      for i := 0 to |packets|
        invariant Valid()
        invariant media == MediaOfBatch(packets[..i], interval)
      {
        var more := Receive(packets[i]);
        media := media + more;
        assert packets[..i + 1][..i] == packets[..i];
      }
      assert packets[..|packets|] == packets;
    }
  }

  // ---------------------------------------------------------------- end to end

  /** A packet of the talker on the wire. */
  function OnWire(p: Packet, dbs: nat, evt: Evt, payload: seq<nat>): (r: Rx) {
    Rx(true, false, 0, true, false, evt, dbs, p.dbc, false, p.stamp, payload)
  }

  /** The right offset for the packet with frames `first..first + fpp`: that of the frame with a timestamp. */
  ghost predicate Placed(marks: seq<Mark>, first: nat, fpp: nat, stamps: seq<nat>, s: nat, dbs: nat) {
    && (forall j {:trigger FrameOf(j, s)} :: 0 <= j && first <= FrameOf(j, s) < first + fpp ==>
          j < |stamps| && marks == [At((FrameOf(j, s) - first) * dbs * 4, stamps[j])])
    && (marks != [] ==> exists j :: 0 <= j && first <= FrameOf(j, s) < first + fpp)
  }

  /** In every packet of a run, the offset computed from the block counter is that of the frame with a timestamp. */
  ghost predicate OffsetLaw(fpp: nat, s: nat, dbs: nat)
    requires s > 0
  {
    forall i {:trigger FrameOf(i, fpp)} :: 0 <= i ==> OffsetRight(FrameOf(i, fpp), fpp, s, dbs)
  }

  ghost predicate OffsetRight(first: nat, fpp: nat, s: nat, dbs: nat)
    requires s > 0
  {
    NextStamped(first, s) < first + fpp ==>
      Offset(Ahead(first % 256, s), dbs) == (NextStamped(first, s) - first) * dbs * 4
  }

  lemma AheadIsNext(first: nat, s: nat)
    requires s > 0 && 256 % s == 0 && s <= 256
    ensures Ahead(first % 256, s) == NextStamped(first, s) - first
  {
    NextStampedBounds(first, s);
    WrapsRight(0, first, 256);
    ModOfMod(0 - (first % 256), 256, s);
    ModOfMod(0 - first, 256, s);
    assert 0 - first == NextStamped(first, s) - first - FrameOf(Stamps(first, s), s);
    NegatedFrame(NextStamped(first, s) - first, Stamps(first, s), s);
    assert Unit(s) == s;
  }

  lemma NegatedFrame(x: nat, j: nat, s: nat)
    requires x < s
    ensures (x - FrameOf(j, s)) % s == x
  {
    ModShift(x, s, 0 - j);
    DivIs(x, s, 0);
  }

  /** Some packet of every run starts half an interval before its timestamp, unless packets fill intervals. */
  lemma {:induction false} Halfway(n: nat, fpp: nat) returns (i: nat)
    requires n > 0 && fpp % Pow2(n) != 0
    ensures FrameOf(i, fpp) % Pow2(n) == Pow2(n - 1)
  {
    var p := Pow2(n - 1);
    assert Pow2(n) == 2 * p;
    if n == 1 {
      i := 1;
      assert FrameOf(1, fpp) == fpp;
    } else if fpp % p != 0 {
      var h := Halfway(n - 1, fpp);
      i := 2 * h;
      assert FrameOf(i, fpp) == 2 * FrameOf(h, fpp);
      DoubledRemainder(FrameOf(h, fpp), p);
    } else {
      i := 1;
      assert FrameOf(1, fpp) == fpp;
      HalfMultiple(fpp, p);
    }
  }

  lemma DoubledRemainder(x: nat, p: nat)
    requires p > 0
    ensures 2 * x % (2 * p) == 2 * (x % p)
  {
    assert x == x / p * p + x % p;
    assert 2 * x == x / p * (2 * p) + 2 * (x % p);
    DivIs(2 * x, 2 * p, x / p);
  }

  lemma HalfMultiple(x: nat, p: nat)
    requires p > 0 && x % p == 0 && x % (2 * p) != 0
    ensures x % (2 * p) == p
  {
    var q := x / p;
    assert x == q * p;
    var h := q / 2;
    assert q == 2 * h || q == 2 * h + 1;
    assert (2 * h) * p == h * (2 * p);
    if q == 2 * h {
      DivIs(x, 2 * p, h);
    } else {
      assert (2 * h + 1) * p == (2 * h) * p + p;
      DivIs(x, 2 * p, h);
    }
  }

  lemma OffsetIs(frames: nat, fpp: nat, dbs: nat)
    requires frames < fpp && fpp * dbs * 4 <= 0xffff
    ensures Offset(frames, dbs) == frames * dbs * 4
  {
    assert frames * dbs <= fpp * dbs;
    DivIs(frames * dbs * 4, 0x1_0000, 0);
  }

  /** The offsets of a stream are right exactly when its interval fits the block counter or its packets fill whole
    intervals. Packets of more than 256 frames that are not a power of two break it. */
  lemma OffsetLawExact(ln2: nat, fpp: nat, dbs: nat)
    requires IsSytIntervalLn2(ln2, fpp) && 1 <= fpp && 1 <= dbs && fpp * dbs * 4 <= 0xffff
    ensures OffsetLaw(fpp, Pow2(ln2), dbs) <==> Pow2(ln2) <= 256 || fpp == Pow2(ln2)
  {
    var s := Pow2(ln2);
    PowersAreIntervals(ln2);
    Pow2Of8();
    if s <= 256 {
      Pow2Below(ln2, 8);
      Pow2Multiple(ln2, 8);
      forall i {:trigger FrameOf(i, fpp)} | 0 <= i ensures OffsetRight(FrameOf(i, fpp), fpp, s, dbs) {
        AheadIsNext(FrameOf(i, fpp), s);
        NextStampedBounds(FrameOf(i, fpp), s);
        if NextStamped(FrameOf(i, fpp), s) < FrameOf(i, fpp) + fpp {
          OffsetIs(NextStamped(FrameOf(i, fpp), s) - FrameOf(i, fpp), fpp, dbs);
        }
      }
    } else {
      Pow2Below(8, ln2);
      Pow2Multiple(8, ln2);
      if fpp == s {
        forall i {:trigger FrameOf(i, fpp)} | 0 <= i ensures OffsetRight(FrameOf(i, fpp), fpp, s, dbs) {
          AtFrame(i, s);
        }
      } else {
        HalfwayBreaks(ln2, fpp, dbs);
      }
    }
  }

  lemma Pow2Below(a: nat, b: nat)
    ensures Pow2(a) < Pow2(b) ==> a < b
    ensures Pow2(a) <= Pow2(b) ==> a <= b
  {
    if b < a {
      Pow2Multiple(b + 1, a);
      assert Pow2(b + 1) == 2 * Pow2(b);
    }
  }

  lemma AtFrame(i: nat, s: nat)
    requires s >= 256 && s % 256 == 0
    ensures FrameOf(i, s) % 256 == 0 && NextStamped(FrameOf(i, s), s) == FrameOf(i, s)
  {
    MultipleTimes(s, i, 256);
    NextStampedBounds(FrameOf(i, s), s);
    StampsCounts(FrameOf(i, s), s, i);
    MulLess(i, Stamps(FrameOf(i, s), s), s);
    MulLess(Stamps(FrameOf(i, s), s), i, s);
  }

  lemma HalfwayBreaks(ln2: nat, fpp: nat, dbs: nat)
    requires IsSytIntervalLn2(ln2, fpp) && ln2 > 8 && fpp < Pow2(ln2) && 1 <= dbs
    ensures !OffsetLaw(fpp, Pow2(ln2), dbs)
  {
    var s, h := Pow2(ln2), Pow2(ln2 - 1);
    assert s == 2 * h && 0 < fpp;
    DivIs(fpp, s, 0);
    var i := Halfway(ln2, fpp);
    var first := FrameOf(i, fpp);
    HalfOfMultiple(first, ln2);
    NextAfterHalf(first, s, h);
    NotZeroBytes(h, dbs);
    assert !OffsetRight(FrameOf(i, fpp), fpp, s, dbs);
  }

  lemma HalfOfMultiple(first: nat, ln2: nat)
    requires ln2 > 8 && first % Pow2(ln2) == Pow2(ln2 - 1)
    ensures first % 256 == 0 && Ahead(0, Pow2(ln2)) == 0
  {
    var s, h := Pow2(ln2), Pow2(ln2 - 1);
    Pow2Of8();
    Pow2Multiple(8, ln2 - 1);
    Pow2Multiple(8, ln2);
    var m := s * (first / s);
    assert first == m + h;
    MultipleTimes(s, first / s, 256);
    Wraps(m, h, 256);
    WrapsLeft(h, 0, 256);
    WrapsLeft(m, h, 256);
  }

  lemma NotZeroBytes(h: nat, dbs: nat)
    requires h > 0 && dbs >= 1
    ensures h * dbs * 4 > 0
    ensures Offset(0, dbs) == 0
  {
    assert h * dbs >= h;
  }

  lemma NextAfterHalf(first: nat, s: nat, h: nat)
    requires s == 2 * h && h > 0 && first % s == h
    ensures NextStamped(first, s) == first + h
  {
    NextStampedBounds(first, s);
    var q := first / s;
    assert first == q * s + h;
    assert (q + 1) * s == q * s + s;
    MulLess(Stamps(first, s), q + 1, s);
    MulLess(q + 1, Stamps(first, s), s);
  }

  /** Arrivals are packet numbers: any of the run, in any order, any number of times. */
  function Arriving(run: seq<Packet>, payloads: seq<seq<nat>>, arrivals: seq<nat>, dbs: nat, evt: Evt): (wire: seq<Rx>)
    requires |payloads| == |run| && forall a :: 0 <= a < |arrivals| ==> arrivals[a] < |run|
    ensures |wire| == |arrivals|
    ensures forall a :: 0 <= a < |wire| ==> wire[a] == OnWire(run[arrivals[a]], dbs, evt, payloads[arrivals[a]])
  {
    seq(|arrivals|, a requires 0 <= a < |arrivals| => OnWire(run[arrivals[a]], dbs, evt, payloads[arrivals[a]]))
  }

  /** Whatever packets of a talker's run arrive, in whatever order and however often, the media stack gets their
    payloads in that order, and the listener puts every timestamp on the frame it belongs to. */
  lemma EndToEnd(run: seq<Packet>, payloads: seq<seq<nat>>, stamps: seq<nat>, arrivals: seq<nat>,
                 fpp: nat, ln2: nat, dbs: nat, evt: Evt)
    requires IsSytIntervalLn2(ln2, fpp) && 1 <= fpp && 1 <= dbs && fpp * dbs * 4 <= 0xffff
    requires Pow2(ln2) <= 256 || fpp == Pow2(ln2)
    requires IsRun(run, fpp, stamps, Pow2(ln2))
    requires evt.Am824? || evt.Floating? || evt.Int32?
    requires |payloads| == |run| && forall a :: 0 <= a < |arrivals| ==> arrivals[a] < |run|
    ensures var media := MediaOfBatch(Arriving(run, payloads, arrivals, dbs, evt), Pow2(ln2));
            && |media| == |arrivals|
            && forall a :: 0 <= a < |arrivals| ==>
                 && media[a].payload == payloads[arrivals[a]] && !media[a].alarm
                 && Placed(media[a].marks, FrameOf(arrivals[a], fpp), fpp, stamps, Pow2(ln2), dbs)
  {
    var wire := Arriving(run, payloads, arrivals, dbs, evt);
    AllDelivered(wire, Pow2(ln2));
    OffsetLawExact(ln2, fpp, dbs);
    forall a | 0 <= a < |arrivals|
      ensures Placed(MediaOf(wire[a], Pow2(ln2)).marks, FrameOf(arrivals[a], fpp), fpp, stamps, Pow2(ln2), dbs)
    {
      PlacedAt(run[arrivals[a]], payloads[arrivals[a]], arrivals[a], stamps, fpp, Pow2(ln2), dbs, evt);
    }
  }

  lemma {:induction false} AllDelivered(wire: seq<Rx>, s: nat)
    requires s > 0 && forall a :: 0 <= a < |wire| ==> WellFormed(wire[a])
    ensures |MediaOfBatch(wire, s)| == |wire|
    ensures forall a :: 0 <= a < |wire| ==> MediaOfBatch(wire, s)[a] == MediaOf(wire[a], s)
  {
    if wire != [] {
      AllDelivered(wire[..|wire| - 1], s);
    }
  }

  lemma PlacedAt(p: Packet, payload: seq<nat>, i: nat, stamps: seq<nat>, fpp: nat, s: nat, dbs: nat, evt: Evt)
    requires 0 < s && fpp <= s && IsPacket(p, FrameOf(i, fpp), fpp, stamps, s)
    requires OffsetLaw(fpp, s, dbs)
    ensures Placed(MediaOf(OnWire(p, dbs, evt, payload), s).marks, FrameOf(i, fpp), fpp, stamps, s, dbs)
  {
    var first := FrameOf(i, fpp);
    CarriesNext(p, first, stamps, s);
    assert OffsetRight(FrameOf(i, fpp), fpp, s, dbs);
    forall j {:trigger FrameOf(j, s)} | 0 <= j && first <= FrameOf(j, s) < first + fpp
      ensures j == Stamps(first, s)
    {
      StampsCounts(first, s, j);
      StampsCounts(first + fpp, s, j);
      StampsStep(first, fpp, s);
    }
  }
}
