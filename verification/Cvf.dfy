/**
 The H.264 talker and listener as they work on packet memory (avtp/cvf.c): the talker overwrites the first two bytes
 of a fragment, the listener moves the start of the payload and writes start codes over headers it no longer needs.
 Both are proved against module H264Payload.
 */
module Cvf {
  import opened H264Payload
  import opened Options
  import opened Sequences

  // ---------------------------------------------------------------- talker

  class CvfTalker {
    var prevIncompleteNal: bool
    var naluHeader: byte
    var isNaluTsValid: bool
    var h264Timestamp: nat

    ghost function View(): (t: Talker)
      reads this
    {
      Talker(prevIncompleteNal, naluHeader)
    }

    constructor ()
      ensures View() == Talker(false, 0)
    {
      prevIncompleteNal, naluHeader, isNaluTsValid, h264Timestamp := false, 0, false, 0;
    }

    /** One buffer of the media stack. A timestamp counts only with the first buffer of a unit; all packets of the
      unit carry it. */
    method PreparePacket(buf: array<byte>, endOfFrame: bool, stamp: Option<nat>) returns (h264Ts: Option<nat>)
      requires buf.Length >= 2 || (buf.Length == 1 && !prevIncompleteNal && buf[0] != FU_A)
      modifies this, buf
      ensures (View(), buf[..]) == Prepared(old(View()), old(buf[..]), endOfFrame)
      ensures !old(prevIncompleteNal) ==> h264Ts == stamp
      ensures h264Ts == if isNaluTsValid then Some(h264Timestamp) else None
      ensures old(prevIncompleteNal) ==> isNaluTsValid == old(isNaluTsValid) && h264Timestamp == old(h264Timestamp)
    {
      var startFu, setSinglePacket := false, false;
      if !prevIncompleteNal {
        if buf[0] == FU_A { startFu := true; } else { setSinglePacket := true; }
      }
      if setSinglePacket {
        naluHeader := buf[0];
      } else if startFu {
        naluHeader := buf[1];
      }
      if !setSinglePacket {
        buf[0] := NalHeader(Nri(naluHeader), FU_A);
        buf[1] := FuHeader(startFu, endOfFrame && !startFu, NalType(naluHeader));
        assert buf[..] == [buf[0], buf[1]] + old(buf[..])[2..];
      }
      var starts := setSinglePacket || startFu;
      if stamp.None? && starts {
        isNaluTsValid := false;
      } else if stamp.Some? && starts {
        isNaluTsValid, h264Timestamp := true, stamp.value;
      }
      h264Ts := if isNaluTsValid then Some(h264Timestamp) else None;
      prevIncompleteNal := !endOfFrame;
    }
  }

  // ---------------------------------------------------------------- listener

  datatype Event = PacketFlags | EndOfFrame(offset: int, h264Ts: Option<nat>)

  /** What becomes of a receive descriptor: it is freed, or its memory from `offset` on goes to the media stack. */
  datatype Desc = Freed | Media(offset: int, len: int, events: seq<Event>)

  function Synced(m: Bytes, at: nat): (r: Bytes)
    requires at + 4 <= |m|
    ensures |r| == |m|
  {
    m[..at] + SYNC + m[at + 4..]
  }

  function MovedDown(m: Bytes, dst: nat, src: nat, n: nat): (r: Bytes)
    requires dst <= src && src + n <= |m|
    ensures |r| == |m|
  {
    m[..dst] + m[src..src + n] + m[dst + n..]
  }

  method WriteSync(mem: array<byte>, at: nat)
    requires at + 4 <= mem.Length
    modifies mem
    ensures mem[..] == Synced(old(mem[..]), at)
  {
    mem[at], mem[at + 1], mem[at + 2], mem[at + 3] := 0, 0, 0, 1;
  }

  /** Moves bytes towards the start, where the two ranges may overlap. */
  method MoveDown(mem: array<byte>, dst: nat, src: nat, n: nat)
    requires dst <= src && src + n <= mem.Length
    modifies mem
    ensures mem[..] == MovedDown(old(mem[..]), dst, src, n)
  {
    ghost var before := mem[..];
    for i := 0 to n
      invariant forall k :: 0 <= k < mem.Length ==> mem[k] == Moved(before, dst, src, i, k)
    {
      mem[dst + i] := mem[src + i];
    }
    ghost var want := MovedDown(before, dst, src, n);
    forall k | 0 <= k < mem.Length ensures mem[k] == want[k] {
      assert mem[k] == Moved(before, dst, src, n, k);
    }
    assert mem[..] == want;
  }

  function Moved(before: Bytes, dst: nat, src: nat, n: nat, k: nat): (b: byte)
    requires dst <= src && src + n <= |before| && k < |before|
  {
    if dst <= k < dst + n then before[k - dst + src] else before[k]
  }

  /** Counts the units of an aggregate of `len` bytes. */
  method CountUnits(mem: array<byte>, offset: nat, len: nat) returns (numData: nat)
    requires 1 <= len && offset + len <= mem.Length
    ensures numData == UnitCount(mem[offset..offset + len], 1)
  {
    ghost var p := mem[offset..offset + len];
    var payloadLength: nat, sizeOffset: nat := len - 1, 1;
    numData := 0;
    while payloadLength > 2
      invariant sizeOffset + payloadLength == len && p == mem[offset..offset + len]
      invariant numData + UnitCount(p, sizeOffset) == UnitCount(p, 1)
    {
      var size := ReadU16(mem, offset + sizeOffset);
      assert size == Size(p, sizeOffset);
      if size > payloadLength - 2 { size := payloadLength - 2; }
      sizeOffset := sizeOffset + 2 + size;
      payloadLength := payloadLength - 2 - size;
      numData := numData + 1;
    }
  }

  method ReadU16(mem: array<byte>, at: nat) returns (n: nat)
    requires at + 2 <= mem.Length
    ensures n == Size(mem[..], at)
  {
    var high: int := mem[at];
    n := high * 256 + mem[at + 1];
  }

  /** The 32-bit timestamp in front of the payload, which start codes may overwrite. */
  function Timestamp(b: Bytes): (n: nat)
    requires |b| == 4
  {
    var b0: int, b1: int, b2: int := b[0], b[1], b[2];
    b0 * 0x100_0000 + b1 * 0x1_0000 + b2 * 0x100 + b[3]
  }

  /** The most significant byte comes first. */
  lemma TimestampReads(n: nat)
    requires n < 0x1_0000_0000
    ensures Timestamp([n / 0x100_0000, n / 0x1_0000 % 256, n / 256 % 256, n % 256]) == n
  {
    assert n / 256 == n / 0x1_0000 * 256 + n / 256 % 256;
    assert n / 0x1_0000 == n / 0x100_0000 * 256 + n / 0x1_0000 % 256;
  }

  /** `mem` from `at` on has `b`. */
  predicate Holds(mem: Bytes, at: int, b: Bytes) {
    0 <= at && at + |b| <= |mem| && mem[at..at + |b|] == b
  }

  lemma SyncedBehind(front: Bytes, back: Bytes)
    requires |back| >= 4
    ensures Synced(front + back, |front|) == front + SYNC + back[4..]
  {
    assert (front + back)[..|front|] == front;
    assert (front + back)[|front| + 4..] == back[4..];
  }

  lemma MovedBehind(front: Bytes, back: Bytes, gap: nat, n: nat)
    requires gap + n <= |back|
    ensures MovedDown(front + back, |front|, |front| + gap, n) == front + back[gap..gap + n] + back[n..]
  {
    var m := front + back;
    assert m[..|front|] == front;
    assert m[|front| + gap..|front| + gap + n] == back[gap..gap + n];
    assert m[|front| + n..] == back[n..];
  }

  /** `back` starts 3 bytes before an aggregate: a header, then two units with their sizes. */
  lemma TwoUnitsMoved(front: Bytes, back: Bytes, n: nat)
    requires 8 + n <= |back|
    ensures var o := |front|;
            Synced(MovedDown(Synced(front + back, o), o + 4, o + 6, n), o + 4 + n) ==
            front + SYNC + back[6..6 + n] + SYNC + back[8 + n..]
  {
    var rest := back[4..];
    Sub(back, 4, |back|, 2, 2 + n);
    Sub(back, 4, |back|, n, |rest|);
    Sub(back, 4 + n, |back|, 4, |rest| - n);
    SyncedBehind(front, back);
    MovedBehind(front + SYNC, rest, 2, n);
    SyncedBehind(front + SYNC + back[6..6 + n], rest[n..]);
  }

  function TwoUnitsRewritten(m: Bytes, at: nat, first: nat): (r: Bytes)
    requires at + 8 + first <= |m|
    ensures |r| == |m|
  {
    m[..at] + SYNC + m[at + 6..at + 6 + first] + SYNC + m[at + 8 + first..]
  }

  lemma RewritingTwoUnits(m: Bytes, at: nat, first: nat)
    requires at + 8 + first <= |m|
    ensures Synced(MovedDown(Synced(m, at), at + 4, at + 6, first), at + 4 + first) == TwoUnitsRewritten(m, at, first)
  {
    Split(m, at, |m|);
    TwoUnitsMoved(m[..at], m[at..], first);
    Sub(m, at, |m|, 6, 6 + first);
    Sub(m, at, |m|, 8 + first, |m| - at);
  }

  /** The rewriting of an aggregate of two units. */
  method RewriteTwoUnits(mem: array<byte>, at: nat, first: nat)
    requires at + 8 + first <= mem.Length
    modifies mem
    ensures mem[..] == TwoUnitsRewritten(old(mem[..]), at, first)
  {
    RewritingTwoUnits(mem[..], at, first);
    hide Synced, MovedDown, TwoUnitsRewritten;
    SyncFirst(mem, at, first);
    WriteSync(mem, at + 4 + first);
  }

  method SyncFirst(mem: array<byte>, at: nat, first: nat)
    requires at + 8 + first <= mem.Length
    modifies mem
    ensures mem[..] == MovedDown(Synced(old(mem[..]), at), at + 4, at + 6, first)
  {
    hide Synced, MovedDown;
    WriteSync(mem, at);
    MoveDown(mem, at + 4, at + 6, first);
  }

  /** In the rewritten memory, both units follow a start code. */
  lemma TwoUnitsHeld(m: Bytes, offset: nat, len: nat, first: nat)
    requires 4 <= offset && offset + len <= |m| && 5 + first <= len
    ensures var p, r := m[offset..offset + len], TwoUnitsRewritten(m, offset - 3, first);
            Holds(r, offset - 3, SYNC + p[3..3 + first] + SYNC + p[5 + first..]) && r[..offset - 3] == m[..offset - 3]
  {
    var p, rest := m[offset..offset + len], m[offset + len..];
    Sub(m, offset, offset + len, 3, 3 + first);
    Sub(m, offset, offset + len, 5 + first, len);
    Split(m, offset + 5 + first, offset + len);
    var u, v := p[3..3 + first], p[5 + first..];
    var front := m[..offset - 3];
    assert TwoUnitsRewritten(m, offset - 3, first) == front + SYNC + u + SYNC + (v + rest);
    Assoc(front + SYNC + u + SYNC, v, rest);
    Assoc(front, SYNC, u);
    Assoc(front, SYNC + u, SYNC);
    Assoc(front, SYNC + u + SYNC, v);
    Parts(front, SYNC + u + SYNC + v, rest);
  }

  method StapATwo(mem: array<byte>, offset: nat, len: nat)
    requires 4 <= offset && offset + len <= mem.Length && 1 <= len
    requires UnitCount(mem[offset..offset + len], 1) == 2
    modifies mem
    ensures Holds(mem[..], offset - 3, StapA(old(mem[offset..offset + len])).bytes)
    ensures |StapA(old(mem[offset..offset + len])).bytes| == len + 3
    ensures mem[..offset - 3] == old(mem[..offset - 3])
  {
    ghost var p := mem[offset..offset + len];
    FirstUnitFits(p);
    var first := ReadU16(mem, offset + 1);
    assert first == Size(p, 1);
    ghost var m := mem[..];
    assert p == m[offset..offset + len];
    TwoUnitsHeld(m, offset, len, first);
    RewriteTwoUnits(mem, offset - 3, first);
  }

  method StapAOne(mem: array<byte>, offset: nat, len: nat)
    requires 4 <= offset && offset + len <= mem.Length && 1 <= len
    requires UnitCount(mem[offset..offset + len], 1) == 1
    modifies mem
    ensures Holds(mem[..], offset - 1, StapA(old(mem[offset..offset + len])).bytes)
    ensures |StapA(old(mem[offset..offset + len])).bytes| == len + 1
    ensures mem[..offset - 1] == old(mem[..offset - 1])
  {
    ghost var p, m := mem[offset..offset + len], mem[..];
    FirstUnitFits(p);
    WriteSync(mem, offset - 1);
    assert p[3..] == m[offset + 3..offset + len];
    assert mem[..][offset - 1..offset + len] == SYNC + p[3..];
  }

  method RewriteStapA(mem: array<byte>, offset: nat, len: nat) returns (dropped: bool, newOffset: int, newLen: int)
    requires 4 <= offset && 1 <= len && offset + len + 4 <= mem.Length
    modifies mem
    ensures var r := StapA(old(mem[offset..offset + len]));
            && (dropped <==> r.Dropped?)
            && (r.Delivered? ==> Holds(mem[..], newOffset, r.bytes) && newLen == |r.bytes|)
    ensures mem[..offset - 3] == old(mem[..offset - 3])
  {
    dropped, newOffset, newLen := true, offset, len;
    var numData: int := CountUnits(mem, offset, len);
    if numData > 2 {
      return;
    }
    dropped := false;
    var tempOffset := numData * 4 - numData * 2 - 1;
    newOffset, newLen := offset - tempOffset, len + tempOffset;
    if numData == 2 {
      StapATwo(mem, offset, len);
    } else if numData == 1 {
      StapAOne(mem, offset, len);
      assert mem[..offset - 3] == mem[..offset - 1][..offset - 3];
    } else {
      WriteSync(mem, newOffset);
      assert mem[newOffset..newOffset + 4] == SYNC;
    }
  }

  /** Puts `newHeader` behind a start code, on top of the two bytes of a fragment's headers. */
  method RewriteFuStart(mem: array<byte>, offset: nat, ghost len: nat, newHeader: byte)
    requires 4 <= offset && 2 <= len && offset + len <= mem.Length
    modifies mem
    ensures Holds(mem[..], offset - 3, SYNC + [newHeader] + old(mem[offset + 2..offset + len]))
    ensures mem[..offset - 3] == old(mem[..offset - 3])
  {
    ghost var before := mem[..];
    WriteSync(mem, offset - 3);
    mem[offset + 1] := newHeader;
    ghost var final := mem[..];
    assert final[offset - 3..offset + len] == SYNC + [newHeader] + before[offset + 2..offset + len];
  }

  method RewriteSingle(mem: array<byte>, offset: nat, ghost len: nat)
    requires 4 <= offset && offset + len <= mem.Length
    modifies mem
    ensures Holds(mem[..], offset - 4, SYNC + old(mem[offset..offset + len]))
    ensures mem[..offset - 4] == old(mem[..offset - 4])
  {
    ghost var before := mem[..];
    WriteSync(mem, offset - 4);
    ghost var after := mem[..];
    assert after[offset - 4..offset] == SYNC;
    assert after[offset..offset + len] == before[offset..offset + len];
    assert after[offset - 4..offset + len] == after[offset - 4..offset] + after[offset..offset + len];
  }

  /** The payload of one packet, rewritten in place according to the type of its NAL unit. */
  method Rewrite(mem: array<byte>, offset: nat, len: nat)
      returns (dropped: bool, newOffset: int, newLen: int, endOfUnit: bool)
    requires 4 <= offset && 1 <= len && offset + len + 4 <= mem.Length
    requires HasHeaders(mem[offset..offset + len])
    modifies mem
    ensures var r := Rx(old(mem[offset..offset + len]));
            && (dropped <==> r.Dropped?)
            && (r.Delivered? ==> Holds(mem[..], newOffset, r.bytes) && newLen == |r.bytes| && endOfUnit == r.endOfUnit)
    ensures mem[..offset - 4] == old(mem[..offset - 4])
  {
    ghost var p := mem[offset..offset + len];
    dropped, newOffset, newLen, endOfUnit := true, offset, len, false;
    var header := mem[offset];
    assert header == p[0];
    var t := NalType(header);
    if Forbidden(header) || Reserved(t) || STAP_B <= t <= MTAP24 {
      return;
    }
    if t == STAP_A {
      dropped, newOffset, newLen := RewriteStapA(mem, offset, len);
      endOfUnit := true;
      assert mem[..offset - 4] == mem[..offset - 3][..offset - 4];
    } else if t == FU_A || t == FU_B {
      var fu := mem[offset + 1];
      assert fu == p[1];
      dropped := false;
      if FuStart(fu) {
        newOffset, newLen := offset - 3, len + 3;
        assert p[2..] == mem[offset + 2..offset + len];
        RewriteFuStart(mem, offset, len, NalHeader(Nri(header), NalType(fu)));
        assert mem[..offset - 4] == mem[..offset - 3][..offset - 4];
      } else {
        newOffset, newLen := offset + 2, len - 2;
        endOfUnit := FuEnd(fu);
        assert p[2..] == mem[offset + 2..offset + len];
      }
    } else {
      dropped, endOfUnit := false, true;
      newOffset, newLen := offset - 4, len + 4;
      RewriteSingle(mem, offset, len);
    }
  }

  /** A received packet: the H.264 timestamp and the payload lie from `l4Offset` on. What is delivered starts no
    earlier than there, and the timestamp is read before a start code overwrites it. */
  method NetRx(mem: array<byte>, l4Offset: nat, l4Len: nat, isH264: bool, marker: bool, ptv: bool, flagged: bool)
      returns (desc: Desc)
    requires 5 <= l4Len && l4Offset + l4Len + 4 <= mem.Length
    requires HasHeaders(mem[l4Offset + 4..l4Offset + l4Len])
    modifies mem
    ensures var r := Rx(old(mem[l4Offset + 4..l4Offset + l4Len]));
            && (desc.Freed? <==> !isH264 || r.Dropped?)
            && (desc.Media? && r.Delivered? ==>
                  && Holds(mem[..], desc.offset, r.bytes) && desc.len == |r.bytes|
                  && desc.events == (if flagged then [PacketFlags] else []) +
                       if !marker && !r.endOfUnit then []
                       else [EndOfFrame(desc.len - 1,
                                            if ptv then Some(Timestamp(old(mem[l4Offset..l4Offset + 4]))) else None)])
    ensures mem[..l4Offset] == old(mem[..l4Offset])
  {
    if !isH264 {
      return Freed;
    }
    var b0: int, b1: int, b2: int := mem[l4Offset], mem[l4Offset + 1], mem[l4Offset + 2];
    var h264Timestamp := b0 * 0x100_0000 + b1 * 0x1_0000 + b2 * 0x100 + mem[l4Offset + 3];
    assert h264Timestamp == Timestamp(mem[l4Offset..l4Offset + 4]);
    var dropped, offset, len, endOfUnit := Rewrite(mem, l4Offset + 4, l4Len - 4);
    if dropped {
      return Freed;
    }
    var events := if flagged then [PacketFlags] else [];
    if marker || endOfUnit {
      events := events + [EndOfFrame(len - 1, if ptv then Some(h264Timestamp) else None)];
    }
    desc := Media(offset, len, events);
  }
}
