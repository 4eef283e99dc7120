/**
 The IEC 61883-6 talker (avtp/61883_iidc.c). It keeps 32-bit frame counters and the 8-bit block counter of the packet
 header, and is proved against the ideal stream of SytPlacement.
 */
module Iec61883 {
  import opened Options
  import opened WrapArithmetic
  import opened SytPlacement

  const NET_TX_BATCH: nat := 32

  // ---------------------------------------------------------------- talker

  /** What the media stack delivers: a batch, or an error. Only a `Partial` packet is shorter than the others. */
  datatype Media = Full | Partial(frames: nat)
  datatype Received = Failed | Batch(packets: seq<Media>)

  /** How many full packets come before the first partial one. */
  function FullPrefix(packets: seq<Media>): (n: nat)
    ensures n <= |packets|
    ensures forall i :: 0 <= i < n ==> packets[i].Full?
    ensures n < |packets| ==> packets[n].Partial?
    ensures forall i :: 0 <= i <= n && i < |packets| && packets[i].Partial? ==> i == n
  {
    if packets == [] || packets[0].Partial? then 0 else 1 + FullPrefix(packets[1..])
  }

  class Talker {
    const framesPerPacket: nat
    const ln2: nat
    const interval: nat

    var mediaCount: nat
    var frameWithTs: nat
    var dbc: nat

    /** Since the last reset: frames sent, timestamps used, packets sent. */
    ghost var frames: nat
    ghost var stamps: seq<nat>
    ghost var run: seq<Packet>

    predicate Config() {
      1 <= framesPerPacket <= 0xffff && IsSytIntervalLn2(ln2, framesPerPacket) && interval == Pow2(ln2)
    }

    /** The counters are those of the ideal stream, wrapped. */
    ghost predicate Counts()
      reads this
    {
      CountersOk(mediaCount, frameWithTs, dbc, frames, |stamps|, interval)
    }

    ghost predicate Valid()
      reads this
    {
      && Config()
      && Counts()
      && frames == FrameOf(|run|, framesPerPacket)
      && IsRun(run, framesPerPacket, stamps, interval)
    }

    constructor (framesPerPacket: nat)
      requires 1 <= framesPerPacket <= 0xffff
      ensures Valid() && this.framesPerPacket == framesPerPacket && run == []
    {
      var n := SytPlacement.SytIntervalLn2(framesPerPacket);
      this.framesPerPacket, ln2, interval := framesPerPacket, n, Pow2(n);
      mediaCount, frameWithTs, dbc := 0, 0, 0;
      frames, stamps, run := 0, [], [];
    }

    method StreamTsReset()
      requires Config()
      modifies this
      ensures Valid() && run == []
    {
      mediaCount, frameWithTs, dbc := 0, 0, 0;
      frames, stamps, run := 0, [], [];
    }

    /** How many timestamps a batch needs, from the wrapped counters. It is never more than one a packet, so it is
      never clamped. */
    method TimestampsNeeded(packets: nat) returns (tsBatch: nat)
      requires Config() && Counts() && packets <= NET_TX_BATCH
      ensures tsBatch == Stamps(frames + FrameOf(packets, framesPerPacket), interval) - Stamps(frames, interval)
      ensures tsBatch <= packets
    {
      IntervalBound(ln2, framesPerPacket);
      tsBatch := TsBatch(mediaCount, frameWithTs, FrameOf(packets, framesPerPacket), interval);
      tsBatch := if tsBatch > NET_TX_BATCH then NET_TX_BATCH else tsBatch;
      TsBatchOfPackets(frames, packets, framesPerPacket, interval);
    }

    /** One packet: it takes the next timestamp exactly when it contains the frame that has it. The block counter
      is that of the packet until the next one is prepared. */
    method SendPacket(k: nat, ts: seq<nat>, tsN: nat) returns (packet: Packet, taken: nat)
      requires Config() && Counts()
      requires k <= framesPerPacket
      requires tsN + Stamps(frames + k, interval) - Stamps(frames, interval) <= |ts|
      modifies this
      ensures Counts() && run == old(run) && frames == old(frames) + k
      ensures tsN <= taken <= |ts|
      ensures taken - tsN == Stamps(frames, interval) - Stamps(old(frames), interval)
      ensures stamps == old(stamps) + ts[tsN..taken]
      ensures packet.frames == k && IsPacket(packet, old(frames), k, stamps, interval)
    {
      IntervalBound(ln2, framesPerPacket);
      CountersStep(mediaCount, frameWithTs, dbc, frames, |stamps|, k, interval);
      packet, taken := Packet(dbc, None, k), tsN;
      mediaCount := Add32(mediaCount, k);
      if IsAhead(mediaCount, frameWithTs) {
        packet, taken := packet.(stamp := Some(ts[tsN])), tsN + 1;
        frameWithTs := Add32(frameWithTs, interval);
      }
      dbc := Add8(dbc, k);
      frames, stamps := frames + k, stamps + ts[tsN..taken];
      PacketBuilt(packet, stamps, old(frames), interval);
    }

    method SendFull(ts: seq<nat>, tsN: nat) returns (packet: Packet, taken: nat)
      requires Valid()
      requires tsN + Stamps(frames + framesPerPacket, interval) - Stamps(frames, interval) <= |ts|
      modifies this
      ensures Valid() && run == old(run) + [packet] && frames == old(frames) + framesPerPacket
      ensures tsN <= taken <= |ts|
      ensures taken - tsN == |stamps| - |old(stamps)|
      ensures stamps == old(stamps) + ts[tsN..taken]
    {
      packet, taken := SendPacket(framesPerPacket, ts, tsN);
      RunGrows(run, framesPerPacket, old(stamps), ts[tsN..taken], interval);
      RunAppends(run, packet, framesPerPacket, stamps, interval);
      FrameAfter(|run|, framesPerPacket);
      run := run + [packet];
    }

    /** The last packet of a batch that ends early. */
    method SendPartial(k: nat, ts: seq<nat>, tsN: nat) returns (packet: Packet)
      requires Valid() && k <= framesPerPacket && tsN <= |ts|
      requires tsN + Stamps(frames + k, interval) - Stamps(frames, interval) <= |ts|
      modifies this
      ensures Valid() && run == []
      ensures IsRun(old(run), framesPerPacket, old(stamps) + ts[tsN..], interval)
      ensures IsPacket(packet, old(frames), k, old(stamps) + ts[tsN..], interval)
    {
      var taken;
      packet, taken := SendPacket(k, ts, tsN);
      RunGrows(run, framesPerPacket, old(stamps), ts[tsN..], interval);
      PacketGrows(packet, old(frames), k, stamps, ts[taken..], interval);
      assert old(stamps) + ts[tsN..] == stamps + ts[taken..];
      StreamTsReset();
    }

    /** Before packet `i` of a batch, a launch time may be taken from timestamp `tsN`: it is there. */
    lemma LaunchRead(start: nat, i: nat, packets: nat, tsN: nat, available: nat)
      requires Config() && Counts() && i < packets && frames == start + FrameOf(i, framesPerPacket)
      requires tsN == |stamps| - Stamps(start, interval)
      requires available == Stamps(start + FrameOf(packets, framesPerPacket), interval) - Stamps(start, interval)
      ensures mediaCount == frameWithTs ==> tsN < available
    {
      IntervalBound(ln2, framesPerPacket);
      LaunchReadInBatch(start, i, packets, framesPerPacket, interval);
    }

    method SendBatch(packets: seq<Media>, clock: seq<nat>) returns (sent: seq<Packet>)
      requires Valid()
      requires forall i :: 0 <= i < |packets| && packets[i].Partial? ==> packets[i].frames <= framesPerPacket
      requires Stamps(frames + FrameOf(|packets|, framesPerPacket), interval) - |stamps| == |clock|
      modifies this
      ensures Valid()
      ensures FullPrefix(packets) == |packets| ==>
                |sent| == |packets| && run == old(run) + sent && stamps == old(stamps) + clock
      ensures FullPrefix(packets) < |packets| ==>
                var n := FullPrefix(packets);
                && |sent| == n + 1 && run == []
                && IsRun(old(run) + sent[..n], framesPerPacket, old(stamps) + clock, interval)
                && IsPacket(sent[n], FrameOf(|old(run)| + n, framesPerPacket), packets[n].frames,
                            old(stamps) + clock, interval)
    {
      hide IsRun, IsPacket, Stamps, Pow2, IsSytIntervalLn2;
      sent := [];
      var i, tsN := 0, 0;
      while i < |packets|
        invariant Valid() && |sent| == i <= FullPrefix(packets)
        invariant frames == old(frames) + FrameOf(i, framesPerPacket)
        invariant tsN <= |clock| && tsN == |stamps| - |old(stamps)|
        invariant stamps == old(stamps) + clock[..tsN]
        invariant run == old(run) + sent
      {
        StampsInBatch(old(frames), i, |packets|, framesPerPacket,
                      if packets[i].Full? then framesPerPacket else packets[i].frames, interval);
        LaunchRead(old(frames), i, |packets|, tsN, |clock|);
        if packets[i].Partial? {
          assert old(stamps) + clock == stamps + clock[tsN..];
          var last := SendPartial(packets[i].frames, clock, tsN);
          sent := sent + [last];
          assert sent[..i] == sent[..|sent| - 1];
          return;
        }
        var packet, taken := SendFull(clock, tsN);
        assert clock[..taken] == clock[..tsN] + clock[tsN..taken];
        FrameAfter(i, framesPerPacket);
        sent := sent + [packet];
        i, tsN := i + 1, taken;
      }
      assert clock[..tsN] == clock;
    }

    /** A batch asks for exactly as many timestamps as it uses and continues the ideal stream. The first partial
      packet is sent with what it contains, what follows it is dropped, and the stream starts over; so it does when
      the media stack or the clock fails. */
    method NetTx(media: Received, clock: seq<nat>) returns (asked: nat, sent: seq<Packet>)
      requires Valid()
      requires media.Batch? ==> |media.packets| <= NET_TX_BATCH
      requires media.Batch? ==>
                 forall i :: 0 <= i < |media.packets| && media.packets[i].Partial? ==>
                   media.packets[i].frames <= framesPerPacket
      modifies this
      ensures Valid()
      ensures media.Batch? ==>
                asked == Stamps(old(frames) + FrameOf(|media.packets|, framesPerPacket), interval) - |old(stamps)|
      ensures media.Failed? || |clock| != asked ==> sent == [] && run == []
      ensures media.Batch? && |clock| == asked && FullPrefix(media.packets) == |media.packets| ==>
                |sent| == |media.packets| && run == old(run) + sent && stamps == old(stamps) + clock
      ensures media.Batch? && |clock| == asked && FullPrefix(media.packets) < |media.packets| ==>
                var n := FullPrefix(media.packets);
                && |sent| == n + 1 && run == []
                && IsRun(old(run) + sent[..n], framesPerPacket, old(stamps) + clock, interval)
                && IsPacket(sent[n], FrameOf(|old(run)| + n, framesPerPacket), media.packets[n].frames,
                            old(stamps) + clock, interval)
    {
      asked, sent := 0, [];
      if media.Failed? {
        StreamTsReset();
        return;
      }
      var packets := media.packets;
      asked := TimestampsNeeded(|packets|);
      if |clock| != asked {
        StreamTsReset();
        return;
      }
      sent := SendBatch(packets, clock);
    }
  }
}
