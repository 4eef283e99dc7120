/**
 Which packets of an IEC 61883-6 stream have a timestamp, and for which of their frames: the ideal stream that
 the wrapping counters of avtp/61883_iidc.c stand for.

 Every SYT_INTERVAL-th frame has a timestamp. Frames, timestamps and packets are numbered from the last reset of
 the talker's counters.
 */
module SytPlacement {
  import opened Options
  import opened WrapArithmetic

  const SYT_INTERVAL_LN2: nat := 3

  // ---------------------------------------------------------------- the interval

  function Pow2(n: nat): (p: nat)
    ensures p > 0
  {
    if n == 0 then 1 else 2 * Pow2(n - 1)
  }

  lemma {:induction false} Pow2Multiple(a: nat, b: nat)
    requires a <= b
    ensures Pow2(a) <= Pow2(b) && Pow2(b) % Pow2(a) == 0
  {
    if a < b {
      Pow2Multiple(a, b - 1);
      MultipleTimes(Pow2(b - 1), 2, Pow2(a));
    } else {
      DivIs(Pow2(b), Pow2(a), 1);
    }
  }

  /** The smallest power of two, from 8 on, that covers a packet. */
  predicate IsSytIntervalLn2(ln2: nat, framesPerPacket: nat) {
    && SYT_INTERVAL_LN2 <= ln2
    && framesPerPacket <= Pow2(ln2)
    && (ln2 == SYT_INTERVAL_LN2 || Pow2(ln2 - 1) < framesPerPacket)
  }

  lemma IntervalBound(ln2: nat, framesPerPacket: nat)
    requires IsSytIntervalLn2(ln2, framesPerPacket)
    ensures framesPerPacket <= Pow2(ln2) && 8 <= Pow2(ln2)
    ensures Pow2(ln2) == 8 || Pow2(ln2) < 2 * framesPerPacket
  {
    Pow2Multiple(SYT_INTERVAL_LN2, ln2);
    assert Pow2(3) == 2 * Pow2(2) == 8;
  }

  method SytIntervalLn2(framesPerPacket: nat) returns (ln2: nat)
    ensures IsSytIntervalLn2(ln2, framesPerPacket)
  {
    ln2 := SYT_INTERVAL_LN2;
    while Pow2(ln2) < framesPerPacket
      invariant SYT_INTERVAL_LN2 <= ln2
      invariant ln2 == SYT_INTERVAL_LN2 || Pow2(ln2 - 1) < framesPerPacket
      decreases framesPerPacket - Pow2(ln2)
    {
      ln2 := ln2 + 1;
    }
  }

  // ---------------------------------------------------------------- frames with a timestamp

  /** The frame that timestamp number `j` belongs to; likewise the first frame of packet number `j` of `s` frames. */
  function FrameOf(j: nat, s: nat): (f: nat) {
    j * s
  }

  lemma FrameAfter(j: nat, s: nat)
    ensures FrameOf(j + 1, s) == FrameOf(j, s) + s
  {
  }

  /** How many of the frames before `m` have a timestamp. */
  function Stamps(m: nat, s: nat): (n: nat) {
    if m == 0 then 0
    else
      var n := Stamps(m - 1, s);
      if FrameOf(n, s) == m - 1 then n + 1 else n
  }

  /** The first frame from `m` on that has a timestamp. */
  function NextStamped(m: nat, s: nat): (f: nat) {
    FrameOf(Stamps(m, s), s)
  }

  lemma {:induction false} NextStampedBounds(m: nat, s: nat)
    requires s > 0
    ensures m <= NextStamped(m, s) < m + s
  {
    if m > 0 {
      NextStampedBounds(m - 1, s);
      FrameAfter(Stamps(m - 1, s), s);
    }
  }

  /** The frames before `m` that have a timestamp are those of the first `Stamps(m, s)` timestamps. */
  lemma StampsCounts(m: nat, s: nat, j: nat)
    requires s > 0
    ensures j < Stamps(m, s) <==> FrameOf(j, s) < m
  {
    NextStampedBounds(m, s);
    MulLess(j, Stamps(m, s), s);
    MulLess(Stamps(m, s), j, s);
  }

  /** A packet no longer than the interval contains at most one frame with a timestamp: the next one. */
  lemma {:induction false} StampsStep(m: nat, k: nat, s: nat)
    requires k <= s && s > 0
    ensures Stamps(m + k, s) == Stamps(m, s) + if m + k > NextStamped(m, s) then 1 else 0
    ensures NextStamped(m + k, s) == NextStamped(m, s) + if m + k > NextStamped(m, s) then s else 0
  {
    NextStampedBounds(m, s);
    FrameAfter(Stamps(m, s), s);
    if k > 0 {
      StampsStep(m, k - 1, s);
      NextStampedBounds(m + k - 1, s);
    }
  }

  lemma {:induction false} StampsMonotone(m: nat, m': nat, s: nat)
    requires m <= m'
    ensures Stamps(m, s) <= Stamps(m', s)
  {
    if m < m' { StampsMonotone(m, m' - 1, s); }
  }

  lemma {:induction false} StampsOfBatch(m: nat, packets: nat, k: nat, s: nat)
    requires k <= s && s > 0
    ensures Stamps(m, s) <= Stamps(m + FrameOf(packets, k), s) <= Stamps(m, s) + packets
  {
    if packets > 0 {
      StampsOfBatch(m, packets - 1, k, s);
      FrameAfter(packets - 1, k);
      StampsStep(m + FrameOf(packets - 1, k), k, s);
    }
  }

  /** While packets remain, the timestamps of the batch suffice for the next one, full or not. */
  lemma StampsInBatch(m: nat, i: nat, packets: nat, fpp: nat, k: nat, s: nat)
    requires i < packets && k <= fpp
    ensures Stamps(m + FrameOf(i, fpp) + k, s) <= Stamps(m + FrameOf(packets, fpp), s)
  {
    MulLess(i, packets, fpp);
    StampsMonotone(m + FrameOf(i, fpp) + k, m + FrameOf(packets, fpp), s);
  }

  /** How many timestamps the talker asks for, from its 32-bit counters: a quotient rounded up. */
  function TsBatch(mediaCount: nat, frameWithTs: nat, k: nat, s: nat): (n: nat)
    requires s > 0
  {
    (mediaCount - frameWithTs + (k + s - 1)) % U32 / s
  }

  /** On counters that wrap, that is the true number of timestamps in `k` frames. */
  lemma TsBatchIsExact(m: nat, k: nat, s: nat)
    requires 0 < s && k + s <= U32
    ensures TsBatch(m % U32, NextStamped(m, s) % U32, k, s) == Stamps(m + k, s) - Stamps(m, s)
  {
    NextStampedBounds(m, s);
    NextStampedBounds(m + k, s);
    StampsMonotone(m, m + k, s);
    FramesBetween(Stamps(m, s), Stamps(m + k, s), s);
    WrappedDistance(m, NextStamped(m, s), k + s - 1);
    DivIs(m - NextStamped(m, s) + (k + s - 1), s, Stamps(m + k, s) - Stamps(m, s));
  }

  /** A batch of packets needs at most one timestamp a packet. */
  lemma TsBatchOfPackets(m: nat, packets: nat, fpp: nat, s: nat)
    requires packets <= 32 && fpp <= 0xffff && fpp <= s <= 0x2_0000 && 0 < s
    ensures TsBatch(m % U32, NextStamped(m, s) % U32, FrameOf(packets, fpp), s) ==
            Stamps(m + FrameOf(packets, fpp), s) - Stamps(m, s) <= packets
  {
    MulLess(packets, 33, fpp);
    TsBatchIsExact(m, FrameOf(packets, fpp), s);
    StampsOfBatch(m, packets, fpp, s);
  }

  lemma WrappedDistance(m: int, f: int, y: int)
    requires 0 <= m - f + y < U32
    ensures (m % U32 - f % U32 + y) % U32 == m - f + y
  {
    Wraps(m, f, U32);
    WrapsLeft(m % U32 - f % U32, y, U32);
    WrapsLeft(m - f, y, U32);
    DivIs(m - f + y, U32, 0);
  }

  /** The launch time of a packet is taken from the next timestamp when the counters are equal, before it is known
    whether the packet takes that timestamp: it is one of those asked for. */
  lemma LaunchReadInBatch(m: nat, i: nat, packets: nat, fpp: nat, s: nat)
    requires i < packets && 0 < fpp && 0 < s <= U32
    ensures (m + FrameOf(i, fpp)) % U32 == NextStamped(m + FrameOf(i, fpp), s) % U32 ==>
              Stamps(m + FrameOf(i, fpp), s) < Stamps(m + FrameOf(packets, fpp), s)
  {
    var at := m + FrameOf(i, fpp);
    var ahead := NextStamped(at, s) - at;
    NextStampedBounds(at, s);
    if at % U32 == NextStamped(at, s) % U32 {
      Wraps(NextStamped(at, s), at, U32);
      DivIs(ahead, U32, 0);
      DivIs(0, U32, 0);
      StampsInBatch(m, i, packets, fpp, 1, s);
    }
  }

  lemma FramesBetween(i: nat, j: nat, s: nat)
    ensures (j - i) * s == FrameOf(j, s) - FrameOf(i, s)
  {
  }

  /** A difference of 32-bit counters, read as a signed number, is positive. */
  predicate IsAhead(mediaCount: nat, frameWithTs: nat) {
    0 < (mediaCount - frameWithTs) % U32 < U32 / 2
  }

  /** On counters that wrap, that says whether a packet of `k` frames contains the next one with a timestamp. */
  lemma IsAheadIsExact(m: nat, k: nat, s: nat)
    requires 0 < s <= U32 / 4 && k <= s
    ensures IsAhead((m + k) % U32, NextStamped(m, s) % U32) <==> m + k > NextStamped(m, s)
  {
    NextStampedBounds(m, s);
    Wraps(m + k, NextStamped(m, s), U32);
    SignOfWrapped(m + k - NextStamped(m, s));
  }

  function Add32(counter: nat, k: nat): (r: nat) {
    (counter + k) % U32
  }

  function Add8(counter: nat, k: nat): (r: nat) {
    (counter + k) % 256
  }

  /** The talker's counters are those of the ideal stream after `m` frames and `n` timestamps, wrapped. */
  predicate CountersOk(mediaCount: nat, frameWithTs: nat, dbc: nat, m: nat, n: nat, s: nat) {
    mediaCount == m % U32 && frameWithTs == NextStamped(m, s) % U32 && n == Stamps(m, s) && dbc == m % 256
  }

  /** They stay so when a packet of `k` frames is sent, with a timestamp if the comparison of counters asks for one. */
  lemma CountersStep(mediaCount: nat, frameWithTs: nat, dbc: nat, m: nat, n: nat, k: nat, s: nat)
    requires CountersOk(mediaCount, frameWithTs, dbc, m, n, s) && 0 < s <= U32 / 4 && k <= s
    ensures var counted := Add32(mediaCount, k);
            if IsAhead(counted, frameWithTs)
            then CountersOk(counted, Add32(frameWithTs, s), Add8(dbc, k), m + k, n + 1, s)
            else CountersOk(counted, frameWithTs, Add8(dbc, k), m + k, n, s)
  {
    StampsStep(m, k, s);
    WrapsLeft(m, k, U32);
    WrapsLeft(m, k, 256);
    WrapsLeft(NextStamped(m, s), s, U32);
    IsAheadIsExact(m, k, s);
  }

  // ---------------------------------------------------------------- packets

  datatype Packet = Packet(dbc: nat, stamp: Option<nat>, frames: nat)

  ghost predicate Carries(p: Packet, first: nat, stamps: seq<nat>, s: nat, j: nat) {
    first <= FrameOf(j, s) < first + p.frames && j < |stamps| && p.stamp == Some(stamps[j])
  }

  /** A packet with the frames `first..first + count`: its block counter is the number of the first, and if one of
    them has a timestamp, the packet carries that timestamp. */
  ghost predicate IsPacket(p: Packet, first: nat, count: nat, stamps: seq<nat>, s: nat) {
    && p.frames == count
    && p.dbc == first % 256
    && (forall j {:trigger FrameOf(j, s)} :: 0 <= j && first <= FrameOf(j, s) < first + count ==>
          Carries(p, first, stamps, s, j))
    && (p.stamp.Some? ==> exists j :: 0 <= j && Carries(p, first, stamps, s, j))
  }

  /** Packet number `i` of `run` has the frames from `i * fpp` on. */
  ghost predicate IsRun(run: seq<Packet>, fpp: nat, stamps: seq<nat>, s: nat) {
    forall i {:trigger run[i]} :: 0 <= i < |run| ==> IsPacket(run[i], FrameOf(i, fpp), fpp, stamps, s)
  }

  lemma PacketGrows(p: Packet, first: nat, count: nat, stamps: seq<nat>, more: seq<nat>, s: nat)
    requires IsPacket(p, first, count, stamps, s)
    ensures IsPacket(p, first, count, stamps + more, s)
  {
    if p.stamp.Some? {
      var j :| 0 <= j && Carries(p, first, stamps, s, j);
      assert Carries(p, first, stamps + more, s, j);
    }
  }

  lemma RunGrows(run: seq<Packet>, fpp: nat, stamps: seq<nat>, more: seq<nat>, s: nat)
    requires IsRun(run, fpp, stamps, s)
    ensures IsRun(run, fpp, stamps + more, s)
  {
    forall i | 0 <= i < |run| ensures IsPacket(run[i], FrameOf(i, fpp), fpp, stamps + more, s) {
      PacketGrows(run[i], FrameOf(i, fpp), fpp, stamps, more, s);
    }
  }

  lemma RunAppends(run: seq<Packet>, p: Packet, fpp: nat, stamps: seq<nat>, s: nat)
    requires IsRun(run, fpp, stamps, s)
    requires IsPacket(p, FrameOf(|run|, fpp), fpp, stamps, s)
    ensures IsRun(run + [p], fpp, stamps, s)
  {
  }

  /** A packet built from the next timestamp, when its frames reach it, is a packet of the stream. */
  lemma PacketBuilt(p: Packet, stamps: seq<nat>, first: nat, s: nat)
    requires 0 < s && p.frames <= s && |stamps| == Stamps(first + p.frames, s) && p.dbc == first % 256
    requires |stamps| > Stamps(first, s) ==> p.stamp == Some(stamps[|stamps| - 1])
    requires |stamps| == Stamps(first, s) ==> p.stamp == None
    ensures IsPacket(p, first, p.frames, stamps, s)
  {
    StampsStep(first, p.frames, s);
    NextStampedBounds(first, s);
    if p.stamp.Some? { assert Carries(p, first, stamps, s, Stamps(first, s)); }
    forall j {:trigger FrameOf(j, s)} | 0 <= j && first <= FrameOf(j, s) < first + p.frames
      ensures Carries(p, first, stamps, s, j)
    {
      StampsCounts(first, s, j);
      StampsCounts(first + p.frames, s, j);
    }
  }

  /** Whatever timestamp a packet carries, it is the next one. */
  lemma CarriesNext(p: Packet, first: nat, stamps: seq<nat>, s: nat)
    requires 0 < s && p.frames <= s && IsPacket(p, first, p.frames, stamps, s)
    ensures p.stamp.Some? <==> NextStamped(first, s) < first + p.frames
    ensures p.stamp.Some? ==> Carries(p, first, stamps, s, Stamps(first, s))
  {
    StampsStep(first, p.frames, s);
    NextStampedBounds(first, s);
    if p.stamp.Some? {
      var j :| 0 <= j && Carries(p, first, stamps, s, j);
      StampsCounts(first, s, j);
      StampsCounts(first + p.frames, s, j);
    }
  }
}
