/**
 H.264 over AVTP (avtp/cvf.c; RFC 6184 sections 5.6, 5.7.1 and 5.8), for the payload layout of IEEE 1722-2016: what
 the talker writes at the front of a fragment, and what the listener makes of a received payload.
 */
module H264Payload {
  import opened Sequences

  type byte = x: int | 0 <= x < 256
  type Bytes = seq<byte>

  const STAP_A: byte := 24
  const STAP_B: byte := 25
  const MTAP24: byte := 27
  const FU_A: byte := 28
  const FU_B: byte := 29

  /** The start code that separates NAL units in a byte stream. */
  const SYNC: Bytes := [0, 0, 0, 1]

  // ---------------------------------------------------------------- header bits

  predicate Forbidden(header: byte) { header >= 128 }
  function Nri(header: byte): (n: byte) { header / 32 % 4 }
  function NalType(header: byte): (t: byte) { header % 32 }
  function NalHeader(nri: byte, t: byte): (header: byte)
    requires nri < 4 && t < 32
  {
    nri * 32 + t
  }

  function FuHeader(start: bool, end: bool, t: byte): (header: byte)
    requires t < 32
  {
    (if start then 128 else 0) + (if end then 64 else 0) + t
  }

  predicate FuStart(header: byte) { header >= 128 }
  predicate FuEnd(header: byte) { header / 64 % 2 == 1 }

  predicate Reserved(t: byte) {
    t == 0 || t == 17 || t == 18 || t == 22 || t == 23 || t == 30 || t == 31
  }

  lemma IndicatorBits(header: byte)
    ensures var i := NalHeader(Nri(header), FU_A);
            !Forbidden(i) && NalType(i) == FU_A && Nri(i) == Nri(header)
  {
  }

  lemma HeaderBits(header: byte)
    ensures NalHeader(Nri(header), NalType(header)) == header % 128
  {
  }

  lemma FuBits(start: bool, end: bool, t: byte)
    requires t < 32
    ensures var h := FuHeader(start, end, t);
            (FuStart(h) <==> start) && (FuEnd(h) <==> end) && NalType(h) == t
  {
  }

  // ---------------------------------------------------------------- talker

  /** `incomplete` says that the next buffer continues the NAL unit whose header is `header`. */
  datatype Talker = Talker(incomplete: bool, header: byte)

  /** The media stack marks the first fragment of a NAL unit with the FU-A type, followed by the unit's header. Later
    fragments leave room for the same two bytes. */
  function Prepared(t: Talker, buf: Bytes, endOfFrame: bool): (r: (Talker, Bytes))
    requires |buf| >= 2 || (|buf| == 1 && !t.incomplete && buf[0] != FU_A)
  {
    var start := !t.incomplete && buf[0] == FU_A;
    if !t.incomplete && !start then
      (Talker(!endOfFrame, buf[0]), buf)
    else
      var header := if start then buf[1] else t.header;
      (Talker(!endOfFrame, header),
       [NalHeader(Nri(header), FU_A), FuHeader(start, endOfFrame && !start, NalType(header))] + buf[2..])
  }

  // ---------------------------------------------------------------- listener

  /** What becomes of a payload: nothing, or bytes for the media stack, with an end of frame or without. */
  datatype Received = Dropped | Delivered(bytes: Bytes, endOfUnit: bool)

  function Size(b: Bytes, at: nat): (n: nat)
    requires at + 2 <= |b|
  {
    var high: int := b[at];
    high * 256 + b[at + 1]
  }

  /** How many units an aggregate is taken to have from `at` on. The last one may be cut short. */
  function UnitCount(b: Bytes, at: nat): (n: nat)
    requires at <= |b|
    decreases |b| - at
  {
    var left := |b| - at;
    if left <= 2 then 0
    else 1 + UnitCount(b, at + 2 + if Size(b, at) > left - 2 then left - 2 else Size(b, at))
  }

  function StapA(p: Bytes): (r: Received)
    requires |p| >= 1
  {
    var n := UnitCount(p, 1);
    if n > 2 then Dropped
    else if n == 0 then Delivered(SYNC[..|p| - 1], true)
    else if n == 1 then Delivered(SYNC + p[3..], true)
    else
      FirstUnitFits(p);
      var first := Size(p, 1);
      Delivered(SYNC + p[3..3 + first] + SYNC + p[5 + first..], true)
  }

  function FuPayload(p: Bytes): (r: Received)
    requires |p| >= 2
  {
    if FuStart(p[1])
    then Delivered(SYNC + [NalHeader(Nri(p[0]), NalType(p[1]))] + p[2..], false)
    else Delivered(p[2..], FuEnd(p[1]))
  }

  predicate HasHeaders(p: Bytes) {
    |p| >= 1 && (NalType(p[0]) == FU_A || NalType(p[0]) == FU_B ==> |p| >= 2)
  }

  function Rx(p: Bytes): (r: Received)
    requires HasHeaders(p)
  {
    var t := NalType(p[0]);
    if Forbidden(p[0]) || Reserved(t) then Dropped
    else if t == STAP_A then StapA(p)
    else if STAP_B <= t <= MTAP24 then Dropped
    else if t == FU_A || t == FU_B then FuPayload(p)
    else Delivered(SYNC + p, true)
  }

  lemma FirstUnitFits(p: Bytes)
    requires |p| >= 1
    ensures UnitCount(p, 1) == 0 <==> |p| <= 3
    ensures UnitCount(p, 1) >= 2 ==> |p| >= 3 && 5 + Size(p, 1) < |p|
  {
  }

  /** What becomes of each type of payload, by number: units are passed on behind a start code, fragments without their
    two headers, of which the first makes the unit's header; the rest is dropped. */
  lemma ReceivedByType(p: Bytes)
    requires HasHeaders(p)
    ensures var t := p[0] % 32;
            && (SingleType(t) <==> 1 <= t <= 16 || 19 <= t <= 21)
            && (Rx(p).Dropped? <==> p[0] >= 128 || t in {0, 17, 18, 22, 23, 25, 26, 27, 30, 31}
                                    || (t == 24 && UnitCount(p, 1) > 2))
            && (p[0] < 128 && SingleType(t) ==> Rx(p) == Delivered([0, 0, 0, 1] + p, true))
  {
    hide UnitCount;
  }

  lemma ReceivedFragment(p: Bytes)
    requires |p| >= 2 && p[0] < 128 && 28 <= p[0] % 32 <= 29
    ensures Rx(p) == if p[1] >= 128 then Delivered([0, 0, 0, 1] + [p[0] / 32 * 32 + p[1] % 32] + p[2..], false)
                     else Delivered(p[2..], p[1] / 64 == 1)
  {
    hide StapA;
  }

  // ---------------------------------------------------------------- fragments undo each other

  function Concat(parts: seq<Bytes>): (b: Bytes) {
    if parts == [] then [] else parts[0] + Concat(parts[1..])
  }

  /** Each buffer has room for two header bytes and then a piece of a NAL unit. */
  predicate Carry(bufs: seq<Bytes>, pieces: seq<Bytes>) {
    && |bufs| == |pieces|
    && forall i :: 0 <= i < |bufs| ==> |bufs[i]| >= 2 && bufs[i][2..] == pieces[i]
  }

  /** The media stack cut a NAL unit into pieces. The first buffer names the FU-A type and the unit's header. */
  predicate IsCut(bufs: seq<Bytes>, nal: Bytes, pieces: seq<Bytes>) {
    && |nal| >= 1 && |bufs| >= 1
    && Carry(bufs, pieces) && Concat(pieces) == nal[1..]
    && bufs[0][0] == FU_A && bufs[0][1] == nal[0]
  }

  /** What the talker sends for buffers of which the last ends the unit. */
  function SentFor(t: Talker, bufs: seq<Bytes>): (sent: seq<Bytes>)
    requires forall i :: 0 <= i < |bufs| ==> |bufs[i]| >= 2
    ensures |sent| == |bufs|
    decreases |bufs|
  {
    if bufs == [] then []
    else
      var r := Prepared(t, bufs[0], |bufs| == 1);
      [r.1] + SentFor(r.0, bufs[1..])
  }

  predicate AllHaveHeaders(sent: seq<Bytes>) {
    forall i :: 0 <= i < |sent| ==> HasHeaders(sent[i])
  }

  function Outcomes(sent: seq<Bytes>): (rs: seq<Received>)
    requires AllHaveHeaders(sent)
    ensures |rs| == |sent|
  {
    if sent == [] then [] else [Rx(sent[0])] + Outcomes(sent[1..])
  }

  /** What the media stack gets, in order, and how many ends of units are marked in it. */
  function Joined(rs: seq<Received>): (b: Bytes) {
    if rs == [] then [] else (if rs[0].Dropped? then [] else rs[0].bytes) + Joined(rs[1..])
  }

  function Ends(rs: seq<Received>): (n: nat) {
    if rs == [] then 0 else (if rs[0].Delivered? && rs[0].endOfUnit then 1 else 0) + Ends(rs[1..])
  }

  lemma FragmentHeaders(t: Talker, buf: Bytes, endOfFrame: bool)
    requires |buf| >= 2 && (t.incomplete || buf[0] == FU_A)
    ensures var sent := Prepared(t, buf, endOfFrame).1;
            var header := if t.incomplete then t.header else buf[1];
            && HasHeaders(sent)
            && Rx(sent) == if t.incomplete then Delivered(buf[2..], endOfFrame)
                           else Delivered(SYNC + [header % 128] + buf[2..], false)
  {
    var header := if t.incomplete then t.header else buf[1];
    var sent := Prepared(t, buf, endOfFrame).1;
    FuBits(!t.incomplete, endOfFrame && t.incomplete, NalType(header));
    IndicatorBits(header);
    HeaderBits(header);
    assert sent[2..] == buf[2..];
    assert Rx(sent) == FuPayload(sent);
  }

  /** The two bytes in front of a later fragment of a unit with header `header`. */
  function LaterHeaders(header: byte, last: bool): (b: Bytes) {
    [header / 32 % 4 * 32 + 28, (if last then 64 else 0) + header % 32]
  }

  lemma {:induction false} LaterFragments(t: Talker, bufs: seq<Bytes>, i: nat)
    requires t.incomplete && i < |bufs| && forall j :: 0 <= j < |bufs| ==> |bufs[j]| >= 2
    ensures SentFor(t, bufs)[i] == LaterHeaders(t.header, i == |bufs| - 1) + bufs[i][2..]
    decreases i
  {
    if i > 0 { LaterFragments(Prepared(t, bufs[0], |bufs| == 1).0, bufs[1..], i - 1); }
  }

  /** Until the unit ends, every later fragment carries the type and importance of the unit's header, whether the first
    buffer was a fragment or was taken for a whole unit; and only the last one is marked as the end. */
  lemma UnitKeepsHeader(t: Talker, bufs: seq<Bytes>, i: nat)
    requires !t.incomplete && 0 < i < |bufs| && forall j :: 0 <= j < |bufs| ==> |bufs[j]| >= 2
    ensures SentFor(t, bufs)[i] ==
            LaterHeaders(bufs[0][if bufs[0][0] == 28 then 1 else 0], i == |bufs| - 1) + bufs[i][2..]
  {
    LaterFragments(Prepared(t, bufs[0], false).0, bufs[1..], i - 1);
  }

  lemma OutcomesCons(p: Bytes, rest: seq<Bytes>)
    requires HasHeaders(p) && AllHaveHeaders(rest)
    ensures AllHaveHeaders([p] + rest) && Outcomes([p] + rest) == [Rx(p)] + Outcomes(rest)
  {
    assert ([p] + rest)[1..] == rest;
  }

  lemma {:induction false} OutcomesInTurn(a: seq<Bytes>, b: seq<Bytes>)
    requires AllHaveHeaders(a) && AllHaveHeaders(b)
    ensures AllHaveHeaders(a + b) && Outcomes(a + b) == Outcomes(a) + Outcomes(b)
  {
    hide Rx;
    if a == [] {
      assert a + b == b;
    } else {
      OutcomesInTurn(a[1..], b);
      assert a + b == [a[0]] + (a[1..] + b);
      OutcomesCons(a[0], a[1..] + b);
      Assoc([Rx(a[0])], Outcomes(a[1..]), Outcomes(b));
    }
  }

  lemma {:induction false} JoinedInTurn(a: seq<Received>, b: seq<Received>)
    ensures Joined(a + b) == Joined(a) + Joined(b)
  {
    if a == [] {
      assert a + b == b;
    } else {
      JoinedInTurn(a[1..], b);
      assert (a + b)[1..] == a[1..] + b;
      Assoc(if a[0].Dropped? then [] else a[0].bytes, Joined(a[1..]), Joined(b));
    }
  }

  /** The pieces after the first, as they should arrive: the last one marked as the end. */
  function Pieces(pieces: seq<Bytes>): (rs: seq<Received>) {
    if pieces == [] then [] else [Delivered(pieces[0], |pieces| == 1)] + Pieces(pieces[1..])
  }

  lemma {:induction false} PiecesJoin(pieces: seq<Bytes>)
    ensures Joined(Pieces(pieces)) == Concat(pieces)
    ensures Ends(Pieces(pieces)) == (if pieces == [] then 0 else 1)
  {
    if pieces != [] {
      PiecesJoin(pieces[1..]);
      assert Pieces(pieces)[1..] == Pieces(pieces[1..]);
    }
  }

  lemma {:induction false} RestUndone(t: Talker, bufs: seq<Bytes>, pieces: seq<Bytes>)
    requires t.incomplete && Carry(bufs, pieces)
    ensures AllHaveHeaders(SentFor(t, bufs)) && Outcomes(SentFor(t, bufs)) == Pieces(pieces)
  {
    if bufs != [] {
      var r := Prepared(t, bufs[0], |bufs| == 1);
      FragmentHeaders(t, bufs[0], |bufs| == 1);
      if |bufs| > 1 {
        RestUndone(r.0, bufs[1..], pieces[1..]);
      } else {
        assert bufs[1..] == [] && pieces[1..] == [];
      }
      OutcomesCons(r.1, SentFor(r.0, bufs[1..]));
    }
  }

  lemma AllUndone(t: Talker, bufs: seq<Bytes>, pieces: seq<Bytes>)
    requires !t.incomplete && bufs != [] && Carry(bufs, pieces) && bufs[0][0] == FU_A
    ensures AllHaveHeaders(SentFor(t, bufs))
    ensures Outcomes(SentFor(t, bufs)) ==
            [Delivered(SYNC + [bufs[0][1] % 128] + pieces[0], false)] + Pieces(pieces[1..])
  {
    var r := Prepared(t, bufs[0], |bufs| == 1);
    FragmentHeaders(t, bufs[0], |bufs| == 1);
    if |bufs| > 1 {
      RestUndone(r.0, bufs[1..], pieces[1..]);
    } else {
      assert bufs[1..] == [] && pieces[1..] == [];
    }
    OutcomesCons(r.1, SentFor(r.0, bufs[1..]));
  }

  lemma HeaderCleared(nal: Bytes)
    requires |nal| >= 1
    ensures SYNC + [nal[0] % 128] + nal[1..] == SYNC + nal <==> !Forbidden(nal[0])
  {
    assert (SYNC + [nal[0] % 128] + nal[1..])[4] == nal[0] % 128 && (SYNC + nal)[4] == nal[0];
    assert nal == [nal[0]] + nal[1..];
  }

  /** However a NAL unit is cut, what arrives is a start code and the unit, exactly when its forbidden bit is clear.
    Its end is marked once, on the last fragment, unless there is only one. */
  lemma FragmentsUndone(t: Talker, bufs: seq<Bytes>, nal: Bytes, pieces: seq<Bytes>)
    requires !t.incomplete && IsCut(bufs, nal, pieces)
    ensures AllHaveHeaders(SentFor(t, bufs))
    ensures Joined(Outcomes(SentFor(t, bufs))) == SYNC + nal <==> !Forbidden(nal[0])
    ensures Ends(Outcomes(SentFor(t, bufs))) == if |bufs| > 1 then 1 else 0
  {
    FragmentsJoined(t, bufs, pieces);
    HeaderCleared(nal);
  }

  lemma FragmentsJoined(t: Talker, bufs: seq<Bytes>, pieces: seq<Bytes>)
    requires !t.incomplete && bufs != [] && Carry(bufs, pieces) && bufs[0][0] == FU_A
    ensures AllHaveHeaders(SentFor(t, bufs))
    ensures Joined(Outcomes(SentFor(t, bufs))) == SYNC + [bufs[0][1] % 128] + Concat(pieces)
    ensures Ends(Outcomes(SentFor(t, bufs))) == if |bufs| > 1 then 1 else 0
  {
    AllUndone(t, bufs, pieces);
    PiecesJoin(pieces[1..]);
    PiecesFollow(SYNC + [bufs[0][1] % 128], pieces[0], pieces[1..]);
    assert Concat(pieces) == pieces[0] + Concat(pieces[1..]);
  }

  lemma PiecesFollow(front: Bytes, piece: Bytes, rest: seq<Bytes>)
    ensures Joined([Delivered(front + piece, false)] + Pieces(rest)) == front + (piece + Concat(rest))
    ensures Ends([Delivered(front + piece, false)] + Pieces(rest)) == Ends(Pieces(rest))
  {
    JoinedCons(front + piece, Pieces(rest));
    PiecesJoin(rest);
  }

  lemma JoinedCons(b: Bytes, rest: seq<Received>)
    ensures Joined([Delivered(b, false)] + rest) == b + Joined(rest)
    ensures Ends([Delivered(b, false)] + rest) == Ends(rest)
  {
    assert ([Delivered(b, false)] + rest)[1..] == rest;
  }

  // ---------------------------------------------------------------- a stream of NAL units

  /** The media stack gives a whole unit, or one cut into fragments. */
  datatype Unit = Whole(nal: Bytes) | Cut(nal: Bytes, pieces: seq<Bytes>, bufs: seq<Bytes>)

  predicate IsUnit(u: Unit) {
    && |u.nal| >= 1 && !Forbidden(u.nal[0])
    && match u
       case Whole(nal) => SingleType(NalType(nal[0]))
       case Cut(nal, pieces, bufs) => IsCut(bufs, nal, pieces)
  }

  /** The types of units that may be sent as they are. */
  predicate SingleType(t: byte) {
    !Reserved(t) && !(STAP_A <= t <= FU_B)
  }

  function SentForAll(t: Talker, us: seq<Unit>): (r: (Talker, seq<Bytes>))
    requires !t.incomplete && forall i :: 0 <= i < |us| ==> IsUnit(us[i])
    ensures !r.0.incomplete
    decreases |us|
  {
    if us == [] then (t, [])
    else
      assert IsUnit(us[0]);
      match us[0]
      case Whole(nal) =>
        var p := Prepared(t, nal, true);
        var r := SentForAll(p.0, us[1..]);
        (r.0, [p.1] + r.1)
      case Cut(nal, pieces, bufs) =>
        var r := SentForAll(Talker(false, nal[0]), us[1..]);
        (r.0, SentFor(t, bufs) + r.1)
  }

  function ByteStream(us: seq<Unit>): (b: Bytes) {
    if us == [] then [] else SYNC + us[0].nal + ByteStream(us[1..])
  }

  /** A whole stream of NAL units, fragmented or not, arrives as the byte stream of those units. */
  lemma {:induction false} StreamUndone(t: Talker, us: seq<Unit>)
    requires !t.incomplete && forall i :: 0 <= i < |us| ==> IsUnit(us[i])
    ensures AllHaveHeaders(SentForAll(t, us).1)
    ensures Joined(Outcomes(SentForAll(t, us).1)) == ByteStream(us)
    decreases |us|
  {
    if us != [] {
      assert IsUnit(us[0]);
      match us[0]
      case Whole(nal) =>
        var r := SentForAll(Prepared(t, nal, true).0, us[1..]);
        StreamUndone(Prepared(t, nal, true).0, us[1..]);
        OutcomesCons(nal, r.1);
        assert Rx(nal) == Delivered(SYNC + nal, true);
        JoinedInTurn([Rx(nal)], Outcomes(r.1));
        assert Joined([Rx(nal)]) == SYNC + nal;
      case Cut(nal, pieces, bufs) =>
        var r := SentForAll(Talker(false, nal[0]), us[1..]);
        FragmentsUndone(t, bufs, nal, pieces);
        StreamUndone(Talker(false, nal[0]), us[1..]);
        OutcomesInTurn(SentFor(t, bufs), r.1);
        JoinedInTurn(Outcomes(SentFor(t, bufs)), Outcomes(r.1));
    }
  }

  // ---------------------------------------------------------------- aggregates

  /** Units packed into one payload, each after its 16-bit size (RFC 6184 section 5.7.1). */
  function Packed(units: seq<Bytes>): (b: Bytes)
    requires forall i :: 0 <= i < |units| ==> 1 <= |units[i]| <= 0xffff
  {
    if units == [] then []
    else SizeBytes(|units[0]|) + units[0] + Packed(units[1..])
  }

  function StartCodes(units: seq<Bytes>): (b: Bytes) {
    if units == [] then [] else SYNC + units[0] + StartCodes(units[1..])
  }

  function SizeBytes(n: nat): (b: Bytes)
    requires n <= 0xffff
    ensures |b| == 2
  {
    [n / 256, n % 256]
  }

  lemma SizeReads(front: Bytes, n: nat, back: Bytes)
    requires n <= 0xffff
    ensures Size(front + SizeBytes(n) + back, |front|) == n
  {
    var b := front + SizeBytes(n) + back;
    assert b[|front|] == n / 256 && b[|front| + 1] == n % 256;
  }

  /** The parse of an aggregate finds its units. Of what is left behind the last whole one, two bytes or less are no
    unit, and a unit that is cut short is one. */
  lemma {:induction false} PackedCount(front: Bytes, units: seq<Bytes>, tail: Bytes)
    requires forall i :: 0 <= i < |units| ==> 1 <= |units[i]| <= 0xffff
    requires |tail| <= 2 || Size(tail, 0) >= |tail| - 2
    ensures UnitCount(front + Packed(units) + tail, |front|) == |units| + if |tail| <= 2 then 0 else 1
    decreases |units|
  {
    hide UnitCount, Size;
    var b := front + Packed(units) + tail;
    if units == [] {
      assert b == front + tail;
      TailCount(front, tail);
    } else {
      var u, rest := units[0], Packed(units[1..]);
      var next := front + SizeBytes(|u|) + u;
      assert b == next + rest + tail;
      Assoc(front + SizeBytes(|u|), u, rest + tail);
      Assoc(next, rest, tail);
      SizeReads(front, |u|, u + (rest + tail));
      UnitSkipped(b, |front|, |u|);
      PackedCount(next, units[1..], tail);
    }
  }

  lemma {:induction false} TailCount(front: Bytes, tail: Bytes)
    requires |tail| <= 2 || Size(tail, 0) >= |tail| - 2
    ensures UnitCount(front + tail, |front|) == if |tail| <= 2 then 0 else 1
  {
    var b := front + tail;
    if |tail| > 2 { assert b[|front|] == tail[0] && b[|front| + 1] == tail[1]; }
  }

  /** The count goes on behind a whole unit. */
  lemma {:induction false} UnitSkipped(b: Bytes, at: nat, n: nat)
    requires at + 2 + n <= |b| && 1 <= n && Size(b, at) == n
    ensures UnitCount(b, at) == 1 + UnitCount(b, at + 2 + n)
  {
  }

  /** An aggregate whose last unit is shorter than its size says is unpacked like one with the size right. */
  lemma AggregateCutShort(header: byte, units: seq<Bytes>, n: nat, rest: Bytes)
    requires !Forbidden(header) && NalType(header) == STAP_A
    requires forall i :: 0 <= i < |units| ==> 1 <= |units[i]| <= 0xffff
    requires rest != [] && |rest| <= n <= 0xffff
    ensures Rx([header] + Packed(units) + (SizeBytes(n) + rest)) ==
            if |units| <= 1 then Delivered(StartCodes(units + [rest]), true) else Dropped
  {
    var tail := SizeBytes(n) + rest;
    var p := [header] + Packed(units) + tail;
    assert tail == [] + SizeBytes(n) + rest;
    SizeReads([], n, rest);
    PackedCount([header], units, tail);
    if units == [] {
      OneUnit(header, rest);
      assert p == [header] + SizeBytes(n) + rest && p[3..] == rest;
      assert units + [rest] == [rest];
    } else if |units| == 1 {
      var u := units[0];
      TwoUnits(header, u, rest);
      assert units == [u] && units + [rest] == [u, rest];
      CutShort(header, u, n, rest);
    }
    assert Rx(p) == StapA(p);
  }

  /** An aggregate without room for a unit leaves nothing but the beginning of a start code. */
  lemma AggregateTooShort(p: Bytes)
    requires 1 <= |p| <= 3 && !Forbidden(p[0]) && NalType(p[0]) == STAP_A
    ensures Rx(p) == Delivered([0, 0, 0][..|p| - 1], true)
  {
    assert SYNC[..|p| - 1] == [0, 0, 0][..|p| - 1];
  }

  lemma CutShort(header: byte, u: Bytes, n: nat, rest: Bytes)
    requires 1 <= |u| <= 0xffff && n <= 0xffff
    ensures var p := [header] + Packed([u]) + (SizeBytes(n) + rest);
            && |p| == 5 + |u| + |rest| && Size(p, 1) == |u|
            && p[3..3 + |u|] == u && p[5 + |u|..] == rest
  {
    var p := [header] + Packed([u]) + (SizeBytes(n) + rest);
    assert [u][1..] == [];
    assert Packed([u]) == SizeBytes(|u|) + u;
    assert p == [header] + SizeBytes(|u|) + (u + (SizeBytes(n) + rest));
    SizeReads([header], |u|, u + (SizeBytes(n) + rest));
    Parts([header] + SizeBytes(|u|), u, SizeBytes(n) + rest);
    assert p == [header] + SizeBytes(|u|) + u + SizeBytes(n) + rest;
    Parts([header] + SizeBytes(|u|) + u, SizeBytes(n), rest);
  }

  /** An aggregate of one or two units becomes a start code and the unit for each; one of more is dropped. */
  lemma AggregateUndone(header: byte, units: seq<Bytes>)
    requires !Forbidden(header) && NalType(header) == STAP_A && units != []
    requires forall i :: 0 <= i < |units| ==> 1 <= |units[i]| <= 0xffff
    ensures Rx([header] + Packed(units)) == if |units| <= 2 then Delivered(StartCodes(units), true) else Dropped
  {
    var p := [header] + Packed(units);
    PackedCount([header], units, []);
    assert p + [] == p;
    if |units| == 1 {
      OneUnit(header, units[0]);
      assert units == [units[0]];
    } else if |units| == 2 {
      TwoUnits(header, units[0], units[1]);
      assert units == [units[0], units[1]];
    }
    assert Rx(p) == StapA(p);
  }

  lemma OneUnit(header: byte, u: Bytes)
    requires 1 <= |u| <= 0xffff
    ensures ([header] + Packed([u]))[3..] == u && StartCodes([u]) == SYNC + u
  {
    assert [u][1..] == [];
    assert [header] + Packed([u]) == [header] + SizeBytes(|u|) + u;
  }

  lemma TwoUnits(header: byte, u: Bytes, v: Bytes)
    requires 1 <= |u| <= 0xffff && 1 <= |v| <= 0xffff
    ensures var p := [header] + Packed([u, v]);
            && |p| == 5 + |u| + |v| && Size(p, 1) == |u|
            && p[3..3 + |u|] == u && p[5 + |u|..] == v
    ensures StartCodes([u, v]) == SYNC + u + SYNC + v
  {
    assert [u, v][1..] == [v] && [v][1..] == [];
    var p := [header] + Packed([u, v]);
    var front, gap := [header] + SizeBytes(|u|), SizeBytes(|v|);
    PackedTwo(header, u, v);
    SizeReads([header], |u|, u + (gap + v));
    Assoc(front, u, gap + v);
    Parts(front, u, gap + v);
    Assoc(front + u, gap, v);
    Parts(front + u, gap, v);
    Assoc(SYNC + u, SYNC, v);
  }

  lemma PackedTwo(header: byte, u: Bytes, v: Bytes)
    requires 1 <= |u| <= 0xffff && 1 <= |v| <= 0xffff
    ensures [header] + Packed([u, v]) == [header] + SizeBytes(|u|) + u + (SizeBytes(|v|) + v)
    ensures StartCodes([u, v]) == SYNC + u + (SYNC + v)
  {
    assert [u, v][1..] == [v] && [v][1..] == [];
    assert Packed([v]) == SizeBytes(|v|) + v;
    assert StartCodes([v]) == SYNC + v;
    Assoc([header], SizeBytes(|u|) + u, SizeBytes(|v|) + v);
    Assoc([header], SizeBytes(|u|), u);
  }
}
