/**
 The hardware clock source (avtp/clock_source.c): timestamps are written to a ring by hardware. At the first update
 the driver fills the ring backwards with extrapolated timestamps, so that consumers find enough of them, and at every
 update it checks the distances of the new ones.

 The ring has a power of two of slots, so that masking an index is taking it modulo the size of the ring.
 */
module ClockSource {
  import opened Sequences
  import opened WrapArithmetic

  // ---------------------------------------------------------------- rings

  function Slot(i: int, size: nat): (s: nat)
    requires size > 0
    ensures s < size
  {
    i % size
  }

  /** `n` slots of a ring, from index `from` on. */
  function Window(ring: seq<nat>, from: int, n: nat): (w: seq<nat>)
    requires |ring| > 0
    ensures |w| == n
  {
    seq(n, k requires 0 <= k < n => ring[Slot(from + k, |ring|)])
  }

  lemma WindowAt(ring: seq<nat>, from: int, n: nat, k: nat)
    requires |ring| > 0 && k < n
    ensures Window(ring, from, n)[k] == ring[Slot(from + k, |ring|)]
  {
  }

  lemma SlotsDiffer(i: int, j: int, size: nat)
    requires size > 0 && i < j < i + size
    ensures Slot(i, size) != Slot(j, size)
  {
    var p, q := i / size, j / size;
    assert i == p * size + i % size && j == q * size + j % size;
    MulLess(p, q, size);
    MulLess(q, p, size);
  }

  /** Writing the slot before a window extends it to the front and pushes the last element out. */
  lemma WriteBefore(ring: seq<nat>, from: int, v: nat)
    requires |ring| > 0
    ensures Window(ring[Slot(from - 1, |ring|) := v], from - 1, |ring|) == [v] + Window(ring, from, |ring| - 1)
  {
    var r := ring[Slot(from - 1, |ring|) := v];
    var new_, old_ := Window(r, from - 1, |ring|), [v] + Window(ring, from, |ring| - 1);
    forall k | 0 < k < |ring| ensures new_[k] == old_[k] {
      SlotsDiffer(from - 1, from - 1 + k, |ring|);
      assert from - 1 + k == from + (k - 1);
    }
  }

  lemma WindowPrefix(ring: seq<nat>, from: int, n: nat, m: nat)
    requires |ring| > 0 && n <= m
    ensures Window(ring, from, m)[..n] == Window(ring, from, n)
    ensures Window(ring, from, m)[n..] == Window(ring, from + n, m - n)
  {
    forall k | 0 <= k < m - n ensures Window(ring, from, m)[n..][k] == Window(ring, from + n, m - n)[k] {
      assert from + (n + k) == from + n + k;
    }
  }

  /** An index and its masked value start the same window. */
  lemma WindowMasked(ring: seq<nat>, from: int, n: nat)
    requires |ring| > 0
    ensures Window(ring, Slot(from, |ring|), n) == Window(ring, from, n)
  {
    var a, b := Window(ring, Slot(from, |ring|), n), Window(ring, from, n);
    forall k | 0 <= k < n ensures a[k] == b[k] {
      WrapsLeft(from, k, |ring|);
      assert Slot(Slot(from, |ring|) + k, |ring|) == Slot(from + k, |ring|);
    }
  }

  // ---------------------------------------------------------------- distances

  predicate Regular(period: nat, nominal: nat, jitter: nat) {
    AbsDist(period, nominal) <= jitter
  }

  /** How many of the distances between consecutive timestamps are irregular. */
  function BadGaps(ts: seq<nat>, nominal: nat, jitter: nat): (n: nat) {
    if |ts| < 2 then 0
    else
      BadGaps(ts[..|ts| - 1], nominal, jitter) +
      if Regular(Gap(ts[|ts| - 2], ts[|ts| - 1]), nominal, jitter) then 0 else 1
  }

  /** The same up to `ts[k]`. */
  function BadUpTo(ts: seq<nat>, k: nat, nominal: nat, jitter: nat): (n: nat)
    requires k < |ts|
  {
    if k == 0 then 0
    else BadUpTo(ts, k - 1, nominal, jitter) + if Regular(Gap(ts[k - 1], ts[k]), nominal, jitter) then 0 else 1
  }

  lemma {:induction false} BadUpToIs(ts: seq<nat>, k: nat, nominal: nat, jitter: nat)
    requires k < |ts|
    ensures BadUpTo(ts, k, nominal, jitter) == BadGaps(ts[..k + 1], nominal, jitter)
  {
    if k > 0 {
      BadUpToIs(ts, k - 1, nominal, jitter);
      assert ts[..k + 1][..k] == ts[..k];
    }
  }

  lemma {:induction false} BadGapsSplit(a: seq<nat>, b: seq<nat>, nominal: nat, jitter: nat)
    requires a != [] && b != []
    ensures BadGaps(a + b, nominal, jitter) ==
            BadGaps(a, nominal, jitter) + BadGaps([a[|a| - 1]] + b, nominal, jitter)
  {
    var n, x := |b| - 1, [a[|a| - 1]];
    assert (a + b)[..|a| + n] == a + b[..n];
    assert (x + b)[..1 + n] == x + b[..n];
    if n > 0 {
      BadGapsSplit(a, b[..n], nominal, jitter);
    } else {
      assert a + b[..n] == a && x + b[..n] == x;
    }
  }

  lemma BadGapsOne(a: nat, ts: seq<nat>, nominal: nat, jitter: nat)
    requires ts != []
    ensures BadGaps([a] + ts, nominal, jitter) ==
            (if Regular(Gap(a, ts[0]), nominal, jitter) then 0 else 1) + BadGaps(ts, nominal, jitter)
  {
    var two := [a, ts[0]];
    assert two[..1] == [a];
    if |ts| > 1 {
      assert [a] + ts == two + ts[1..];
      BadGapsSplit(two, ts[1..], nominal, jitter);
      assert [ts[0]] + ts[1..] == ts;
    } else {
      assert [a] + ts == two;
    }
  }

  /** The places where the distance to the timestamp before is off by more than the jitter. */
  ghost function BadPlaces(ts: seq<nat>, nominal: nat, jitter: nat): (bad: set<nat>) {
    set k: nat {:trigger ts[k]} | 0 < k < |ts| && AbsDist(Gap(ts[k - 1], ts[k]), nominal) > jitter
  }

  lemma {:induction false} BadGapsCounts(ts: seq<nat>, nominal: nat, jitter: nat)
    ensures BadGaps(ts, nominal, jitter) == |BadPlaces(ts, nominal, jitter)|
  {
    if |ts| < 2 {
      assert BadPlaces(ts, nominal, jitter) == {};
    } else {
      var before, n := ts[..|ts| - 1], |ts| - 1;
      BadGapsCounts(before, nominal, jitter);
      var bad := BadPlaces(before, nominal, jitter);
      if AbsDist(Gap(ts[n - 1], ts[n]), nominal) > jitter {
        assert BadPlaces(ts, nominal, jitter) == bad + {n};
      } else {
        assert BadPlaces(ts, nominal, jitter) == bad;
      }
    }
  }

  // ---------------------------------------------------------------- filling backwards

  function Back(ts: nat, period: nat): (t: nat) {
    (ts - period) % U32
  }

  /** `count` timestamps before `ts`, a period apart. */
  function Backfill(ts: nat, period: nat, count: nat): (r: seq<nat>)
    ensures |r| == count
    decreases count
  {
    if count == 0 then []
    else
      var after := Backfill(ts, period, count - 1);
      [Back(if after == [] then ts else after[0], period)] + after
  }

  lemma GapBack(ts: nat, period: nat)
    requires period < U32
    ensures Gap(Back(ts, period), ts) == period
  {
    WrapsRight(ts, ts - period, U32);
    DivIs(period, U32, 0);
    assert ts - (ts - period) == period;
  }

  /** Nothing irregular is ever added in front. */
  lemma {:induction false} BackfillRegular(ts: seq<nat>, period: nat, count: nat, nominal: nat, jitter: nat)
    requires ts != [] && period < U32 && Regular(period, nominal, jitter)
    ensures BadGaps(Backfill(ts[0], period, count) + ts, nominal, jitter) == BadGaps(ts, nominal, jitter)
    ensures count > 0 ==>
              Gap((Backfill(ts[0], period, count) + ts)[0], (Backfill(ts[0], period, count) + ts)[1]) == period
  {
    var all := Backfill(ts[0], period, count) + ts;
    if count == 0 {
      assert all == ts;
    } else {
      BackfillRegular(ts, period, count - 1, nominal, jitter);
      var after := Backfill(ts[0], period, count - 1);
      var rest := after + ts;
      GapBack(rest[0], period);
      assert all == [Back(rest[0], period)] + rest;
      BadGapsOne(Back(rest[0], period), rest, nominal, jitter);
    }
  }

  // ---------------------------------------------------------------- the first update

  /** The period extrapolated with: that of the first two timestamps, if there are two and it is regular. */
  function FillPeriod(hw: seq<nat>, nominal: nat, jitter: nat): (p: nat)
    requires hw != []
  {
    if |hw| > 1 && Regular(Gap(hw[0], hw[1]), nominal, jitter) then Gap(hw[0], hw[1]) else nominal
  }

  /** `k + 1` slots before the hardware's first timestamp, a slot is filled with that many periods before it: the period
    of the hardware's own first two timestamps if there are two and they are regular, the nominal one otherwise. */
  lemma FilledAt(hw: seq<nat>, extra: nat, nominal: nat, jitter: nat, k: nat)
    requires hw != [] && k < extra
    ensures var usable := |hw| > 1 && AbsDist(Gap(hw[0], hw[1]), nominal) <= jitter;
            Filled(hw, extra, nominal, jitter)[extra - 1 - k] ==
            (hw[0] - (k + 1) * if usable then Gap(hw[0], hw[1]) else nominal) % U32
  {
    BackfillAt(hw[0], FillPeriod(hw, nominal, jitter), extra, k);
  }

  lemma {:induction false} BackfillAt(ts: nat, period: nat, count: nat, k: nat)
    requires k < count
    ensures Backfill(ts, period, count)[count - 1 - k] == (ts - (k + 1) * period) % U32
    decreases count
  {
    if k < count - 1 {
      BackfillAt(ts, period, count - 1, k);
    } else if count > 1 {
      BackfillAt(ts, period, count - 1, k - 1);
      WrapsLeft(ts - k * period, 0 - period, U32);
      assert k * period + period == (k + 1) * period;
    }
  }

  function Filled(hw: seq<nat>, extra: nat, nominal: nat, jitter: nat): (w: seq<nat>)
    requires hw != []
    ensures |w| == extra + |hw|
  {
    Backfill(hw[0], FillPeriod(hw, nominal, jitter), extra) + hw
  }

  lemma NominalRegular(nominal: nat, jitter: nat)
    ensures Regular(nominal, nominal, jitter)
  {
  }

  lemma FilledRegular(hw: seq<nat>, extra: nat, nominal: nat, jitter: nat)
    requires hw != [] && nominal < U32
    ensures BadGaps(Filled(hw, extra, nominal, jitter), nominal, jitter) == BadGaps(hw, nominal, jitter)
    ensures extra > 0 ==>
              var w := Filled(hw, extra, nominal, jitter);
              Gap(w[0], w[1]) == FillPeriod(hw, nominal, jitter) && Regular(Gap(w[0], w[1]), nominal, jitter)
  {
    NominalRegular(nominal, jitter);
    BackfillRegular(hw, FillPeriod(hw, nominal, jitter), extra, nominal, jitter);
  }

  /** The check of the first update starts from a timestamp that never was, placed before the first one at the
    distance of the first two. `next` is the second timestamp, or what the ring holds in its place. */
  function Invented(first: nat, next: nat): (t: nat) {
    Back(first, Gap(first, next))
  }

  /** What the first update counts as irregular: the irregular distances of the hardware's timestamps and, when nothing
    was filled in, the first distance a second time. */
  lemma FirstCheck(hw: seq<nat>, extra: nat, next: nat, nominal: nat, jitter: nat)
    requires hw != [] && nominal < U32
    requires extra + |hw| > 1 ==> next == Filled(hw, extra, nominal, jitter)[1]
    ensures var w := Filled(hw, extra, nominal, jitter);
            BadGaps([Invented(w[0], next)] + w, nominal, jitter) ==
            BadGaps(hw, nominal, jitter) + if extra == 0 && !Regular(Gap(hw[0], next), nominal, jitter) then 1 else 0
  {
    var w := Filled(hw, extra, nominal, jitter);
    FilledRegular(hw, extra, nominal, jitter);
    InventedCheck(w, next, nominal, jitter);
    if extra == 0 { assert w == hw; }
  }

  lemma InventedCheck(w: seq<nat>, next: nat, nominal: nat, jitter: nat)
    requires w != []
    ensures BadGaps([Invented(w[0], next)] + w, nominal, jitter) ==
            BadGaps(w, nominal, jitter) + if !Regular(Gap(w[0], next), nominal, jitter) then 1 else 0
  {
    GapBack(w[0], Gap(w[0], next));
    BadGapsOne(Invented(w[0], next), w, nominal, jitter);
  }

  // ---------------------------------------------------------------- the driver

  class Source {
    const ring: array<nat>
    const nominalPeriod: nat
    const periodJitter: nat
    const minValidCount: nat
    var writeIndex: nat
    var count: nat
    var lastTs: nat
    var firstUpdate: bool
    var extraCount: nat
    var errPeriod: nat

    ghost predicate Valid()
      reads this
    {
      && 0 < ring.Length && writeIndex < ring.Length && nominalPeriod < U32
      && minValidCount <= ring.Length / 4
    }

    constructor (ring: array<nat>, nominalPeriod: nat, periodJitter: nat, minValidCount: nat)
      requires 0 < ring.Length && nominalPeriod < U32 && minValidCount <= ring.Length / 4
      ensures Valid() && firstUpdate && this.ring == ring && this.minValidCount == minValidCount
    {
      this.ring, this.nominalPeriod, this.periodJitter, this.minValidCount :=
        ring, nominalPeriod, periodJitter, minValidCount;
      writeIndex, count, lastTs, firstUpdate, extraCount, errPeriod := 0, 0, 0, true, 0, 0;
    }

    method PeriodToFill(start: nat, avail: nat) returns (period: nat)
      requires Valid() && start < ring.Length && 0 < avail
      ensures period == FillPeriod(Window(ring[..], start, avail), nominalPeriod, periodJitter)
    {
      SlotIs(start, ring.Length);
      period := nominalPeriod;
      if avail > 1 {
        period := (ring[Slot(start + 1, ring.Length)] - ring[start]) % U32;
        if AbsDist(period, nominalPeriod) > periodJitter { period := nominalPeriod; }
      }
    }

    /** Fills `extra` slots before `start`, where `avail` timestamps are. */
    method GridExpand(start: nat, extra: nat, avail: nat)
      requires Valid() && start < ring.Length && 0 < avail && avail + extra < ring.Length
      modifies ring
      ensures FilledRing(old(ring[..]), ring[..], start, avail, extra, nominalPeriod, periodJitter)
    {
      ghost var before := ring[..];
      var period := PeriodToFill(start, avail);
      SlotIs(start, ring.Length);
      FillBackwards(start, extra, period);
      WindowPrefix(before, start, avail, ring.Length - extra);
    }

    method FillBackwards(start: nat, extra: nat, period: nat)
      requires Valid() && start < ring.Length && extra < ring.Length
      modifies ring
      ensures Window(ring[..], start - extra, ring.Length) ==
              Backfill(old(ring[start]), period, extra) + Window(old(ring[..]), start, ring.Length - extra)
    {
      ghost var before := ring[..];
      SlotIs(start, ring.Length);
      var at: nat, ts: nat := start, ring[start];
      assert Window(before, start - 0, ring.Length) == Backfill(ts, period, 0) + Window(before, start - 0, ring.Length);
      for i := 0 to extra
        invariant FilledUpTo(ring[..], before, start, i, period, at, ts)
      {
        ghost var was := ring[..];
        FillStep(was, before, start, i, period, at, ts);
        at := Slot(at - 1, ring.Length);
        ts := (ts - period) % U32;
        ring[at] := ts;
        assert ring[..] == was[at := ts];
      }
    }

    /** The first update that finds timestamps fills the ring up to the number that has to be valid. */
    method FillUp(avail: nat) returns (valid: nat)
      requires Valid() && 0 < avail < ring.Length
      modifies `writeIndex, `extraCount, ring
      ensures Valid() && valid == avail + Extra(avail, minValidCount)
      ensures extraCount == if valid > avail then valid - avail else old(extraCount)
      ensures writeIndex == Slot(old(writeIndex) - (valid - avail), ring.Length)
      ensures FilledRing(old(ring[..]), ring[..], old(writeIndex), avail, valid - avail, nominalPeriod, periodJitter)
    {
      SlotIs(writeIndex, ring.Length);
      valid := avail;
      if avail < minValidCount {
        var extraSlots := minValidCount - avail;
        GridExpand(writeIndex, extraSlots, avail);
        writeIndex := Slot(writeIndex - extraSlots, ring.Length);
        extraCount, valid := extraSlots, avail + extraSlots;
      } else {
        NothingFilled(ring[..], writeIndex, avail, nominalPeriod, periodJitter);
      }
    }

    /** The check of the distances starts from a timestamp before the first one. */
    method PrepareCheck()
      requires Valid()
      modifies `lastTs, `firstUpdate
      ensures !firstUpdate
      ensures lastTs == Invented(ring[writeIndex], ring[Slot(writeIndex + 1, ring.Length)])
    {
      var ts := ring[writeIndex];
      var period := (ring[Slot(writeIndex + 1, ring.Length)] - ts) % U32;
      lastTs := (ts - period) % U32;
      firstUpdate := false;
    }

    method CheckOne(ts: nat)
      modifies `lastTs, `errPeriod
      ensures lastTs == ts
      ensures errPeriod == old(errPeriod) + if Regular(Gap(old(lastTs), ts), nominalPeriod, periodJitter) then 0 else 1
    {
      var period := (ts - lastTs) % U32;
      if AbsDist(period, nominalPeriod) > periodJitter { errPeriod := errPeriod + 1; }
      lastTs := ts;
    }

    /** Counts the irregular distances of the `n` timestamps from the write index on. */
    method CheckPeriods(wIdx: nat, ghost n: nat)
      requires Valid() && wIdx < ring.Length && n == Slot(wIdx - writeIndex, ring.Length)
      modifies `lastTs, `errPeriod
      ensures var w := Window(ring[..], writeIndex, n);
              && errPeriod == old(errPeriod) + BadGaps([old(lastTs)] + w, nominalPeriod, periodJitter)
              && lastTs == if n == 0 then old(lastTs) else w[n - 1]
    {
      ghost var w := [lastTs] + Window(ring[..], writeIndex, n);
      ghost var k := 0;
      var i := writeIndex;
      SlotIs(writeIndex, ring.Length);
      hide Slot, Window;
      while i != wIdx
        invariant k <= n && i == Slot(writeIndex + k, ring.Length)
        invariant lastTs == w[k] && errPeriod == old(errPeriod) + BadUpTo(w, k, nominalPeriod, periodJitter)
        decreases n - k
      {
        Distance(writeIndex, wIdx, k, n, ring.Length);
        SlotNext(writeIndex + k, ring.Length);
        WindowAt(ring[..], writeIndex, n, k);
        CheckOne(ring[i]);
        i := Slot(i + 1, ring.Length);
        k := k + 1;
      }
      Distance(writeIndex, wIdx, k, n, ring.Length);
      BadUpToIs(w, n, nominalPeriod, periodJitter);
      assert w[..n + 1] == w;
    }

    /** An update that is not the first to find timestamps only checks distances; `hwCount` timestamps were written
      in all, the last one before index `wIdx`. */
    method LaterUpdate(wIdx: nat, hwCount: nat, requested: nat)
      requires Valid() && wIdx < ring.Length
      modifies this
      ensures Valid() && writeIndex == wIdx && count == hwCount + extraCount
      ensures firstUpdate == old(firstUpdate) && extraCount == old(extraCount)
      ensures var hw := Window(ring[..], old(writeIndex), Slot(wIdx - old(writeIndex), ring.Length));
              && errPeriod == old(errPeriod) + BadGaps([old(lastTs)] + hw, nominalPeriod, periodJitter)
              && lastTs == if hw == [] then old(lastTs) else hw[|hw| - 1]
    {
      var avail := Slot(wIdx - writeIndex, ring.Length);
      ghost var n := avail;
      if requested != 0 && requested < avail { avail := requested; }
      if avail != 0 {
        CheckPeriods(wIdx, n);
      }
      writeIndex := wIdx;
      count := hwCount + extraCount;
    }

    /** The first update that finds timestamps. */
    method StartUpdate(wIdx: nat, hwCount: nat, requested: nat, avail: nat)
      requires Valid() && wIdx < ring.Length && firstUpdate && 0 < avail == Slot(wIdx - writeIndex, ring.Length)
      modifies this, ring
      ensures Valid() && writeIndex == wIdx && count == hwCount + extraCount && !firstUpdate
      ensures var extra := Extra(avail, minValidCount);
              var hw := Window(old(ring[..]), old(writeIndex), avail);
              var w := Filled(hw, extra, nominalPeriod, periodJitter);
              && extraCount == (if extra > 0 then extra else old(extraCount))
              && FilledRing(old(ring[..]), ring[..], old(writeIndex), avail, extra, nominalPeriod, periodJitter)
              && lastTs == hw[avail - 1]
              && errPeriod == old(errPeriod) +
                   FirstErrors(w, ring[Slot(old(writeIndex) - extra + 1, ring.Length)], nominalPeriod, periodJitter)
    {
      hide Slot, Window, BadGaps, Invented;
      ghost var before, from := ring[..], writeIndex;
      var valid := FillUp(avail);
      ghost var extra := valid - avail;
      PrepareCheck();
      StartOfCheck(before, ring[..], from, wIdx, avail, extra, nominalPeriod, periodJitter);
      LaterUpdate(wIdx, hwCount, requested);
    }

    method HwUpdate(wIdx: nat, hwCount: nat, requested: nat)
      requires Valid() && wIdx < ring.Length
      modifies this, ring
      ensures Valid() && writeIndex == wIdx && count == hwCount + extraCount
      ensures var avail := Slot(wIdx - old(writeIndex), ring.Length);
              var hw := Window(old(ring[..]), old(writeIndex), avail);
              if avail > 0 && old(firstUpdate) then
                var extra := Extra(avail, minValidCount);
                var w := Filled(hw, extra, nominalPeriod, periodJitter);
                && !firstUpdate && extraCount == (if extra > 0 then extra else old(extraCount))
                && FilledRing(old(ring[..]), ring[..], old(writeIndex), avail, extra, nominalPeriod, periodJitter)
                && ReadyRing(old(ring[..]), ring[..], old(writeIndex), avail,
                             minValidCount, nominalPeriod, periodJitter)
                && lastTs == hw[avail - 1]
                && errPeriod == old(errPeriod) +
                     FirstErrors(w, ring[Slot(old(writeIndex) - extra + 1, ring.Length)], nominalPeriod, periodJitter)
              else
                && ring[..] == old(ring[..]) && firstUpdate == old(firstUpdate) && extraCount == old(extraCount)
                && errPeriod == old(errPeriod) + BadGaps([old(lastTs)] + hw, nominalPeriod, periodJitter)
                && lastTs == if hw == [] then old(lastTs) else hw[avail - 1]
    {
      var avail := Slot(wIdx - writeIndex, ring.Length);
      if firstUpdate && avail > 0 {
        StartUpdate(wIdx, hwCount, requested, avail);
        FilledIsReady(old(ring[..]), ring[..], old(writeIndex), avail, minValidCount, nominalPeriod, periodJitter);
      } else {
        LaterUpdate(wIdx, hwCount, requested);
      }
    }
  }

  /** The whole ring after filling, from the first slot that was filled on. */
  ghost predicate FilledRing(before: seq<nat>, after: seq<nat>, start: nat,
                           avail: nat, extra: nat, nominal: nat, jitter: nat) {
    && 0 < |before| == |after| && 0 < avail && avail + extra <= |before|
    && Window(after, start - extra, |after|) ==
       Filled(Window(before, start, avail), extra, nominal, jitter)
       + Window(before, start + avail, |before| - avail - extra)
  }

  lemma FilledNothing(hw: seq<nat>, nominal: nat, jitter: nat)
    requires hw != []
    ensures Filled(hw, 0, nominal, jitter) == hw
  {
  }

  /** The ring as the consumers find it after the first update: at least `minValid` timestamps up to the write
    index, all the hardware wrote among them as it wrote them, everything else in the ring untouched, and every distance
    up to the hardware's first timestamp regular. */
  ghost predicate ReadyRing(before: seq<nat>, after: seq<nat>, start: nat, avail: nat,
                          minValid: nat, nominal: nat, jitter: nat) {
    var extra := Extra(avail, minValid);
    && 0 < |after| == |before| && minValid <= avail + extra <= |before|
    && (forall i :: start <= i < start + |before| - extra ==> Same(before, after, i))
    && (forall i :: start - extra <= i < start ==> RegularAt(after, i, nominal, jitter))
  }

  ghost predicate Same(before: seq<nat>, after: seq<nat>, i: int)
    requires 0 < |before| == |after|
  {
    after[Slot(i, |after|)] == before[Slot(i, |before|)]
  }

  ghost predicate RegularAt(ring: seq<nat>, i: int, nominal: nat, jitter: nat)
    requires 0 < |ring|
  {
    Regular(Gap(ring[Slot(i, |ring|)], ring[Slot(i + 1, |ring|)]), nominal, jitter)
  }

  lemma FilledIsReady(before: seq<nat>, after: seq<nat>, start: nat, avail: nat,
                      minValid: nat, nominal: nat, jitter: nat)
    requires nominal < U32
    requires FilledRing(before, after, start, avail, Extra(avail, minValid), nominal, jitter)
    ensures ReadyRing(before, after, start, avail, minValid, nominal, jitter)
  {
    var extra, size := Extra(avail, minValid), |before|;
    var hw := Window(before, start, avail);
    var w := Filled(hw, extra, nominal, jitter);
    var all := Window(after, start - extra, size);
    FilledGaps(hw, extra, nominal, jitter);
    forall i | start <= i < start + size - extra ensures Same(before, after, i) {
      var k := i - start;
      assert all[extra + k] == after[Slot(start - extra + (extra + k), size)];
      assert start - extra + (extra + k) == i;
      if k < avail {
        assert all[extra + k] == hw[k];
      } else {
        assert all[extra + k] == Window(before, start + avail, size - avail - extra)[k - avail];
        assert start + avail + (k - avail) == i;
      }
    }
    forall i | start - extra <= i < start ensures RegularAt(after, i, nominal, jitter) {
      var k := i - (start - extra);
      assert all[k] == w[k] && all[k + 1] == w[k + 1];
      assert start - extra + k == i && start - extra + (k + 1) == i + 1;
    }
  }

  lemma NothingFilled(ring: seq<nat>, start: nat, avail: nat, nominal: nat, jitter: nat)
    requires 0 < avail <= |ring|
    ensures FilledRing(ring, ring, start, avail, 0, nominal, jitter)
  {
    var all := Window(ring, start, |ring|);
    WindowPrefix(ring, start, avail, |ring|);
    assert all == all[..avail] + all[avail..];
    FilledNothing(all[..avail], nominal, jitter);
  }

  lemma FilledWindow(before: seq<nat>, after: seq<nat>, start: nat, avail: nat, extra: nat, nominal: nat, jitter: nat)
    requires FilledRing(before, after, start, avail, extra, nominal, jitter)
    ensures var hw := Window(before, start, avail); var w := Filled(hw, extra, nominal, jitter);
            && Window(after, Slot(start - extra, |after|), avail + extra) == w
            && after[Slot(start - extra, |after|)] == w[0]
            && w[avail + extra - 1] == hw[avail - 1]
  {
    WindowPrefix(after, start - extra, avail + extra, |after|);
    WindowMasked(after, start - extra, avail + extra);
    assert Window(after, start - extra, |after|)[0] == after[Slot(start - extra, |after|)];
  }

  /** The check of a first update goes through what was filled in and the hardware's timestamps. */
  lemma StartOfCheck(before: seq<nat>, after: seq<nat>, from: nat, to: nat, avail: nat,
                     extra: nat, nominal: nat, jitter: nat)
    requires FilledRing(before, after, from, avail, extra, nominal, jitter) && avail + extra < |after|
    requires from < |after| && to < |after| && avail == Slot(to - from, |after|)
    ensures var hw := Window(before, from, avail);
            var w := Filled(hw, extra, nominal, jitter);
            var at := Slot(from - extra, |after|);
            && Window(after, at, Slot(to - at, |after|)) == w
            && after[at] == w[0] && Slot(at + 1, |after|) == Slot(from - extra + 1, |after|)
            && w[|w| - 1] == hw[avail - 1]
  {
    var at, size := Slot(from - extra, |after|), |after|;
    assert Slot(to - at, size) == avail + extra by { Advance(from, to, avail, extra, size); }
    assert Slot(at + 1, size) == Slot(from - extra + 1, size) by { SlotNext(from - extra, size); }
    FilledWindow(before, after, from, avail, extra, nominal, jitter);
  }

  function Extra(avail: nat, minValid: nat): (n: nat) {
    if avail < minValid then minValid - avail else 0
  }

  /** What the first check counts, over the window it goes through. */
  function FirstErrors(w: seq<nat>, next: nat, nominal: nat, jitter: nat): (n: nat)
    requires w != []
  {
    BadGaps([Invented(w[0], next)] + w, nominal, jitter)
  }

  lemma SlotNext(i: int, size: nat)
    requires size > 0
    ensures Slot(Slot(i, size) + 1, size) == Slot(i + 1, size)
  {
    WrapsLeft(i, 1, size);
  }

  /** Going on from `from`, the index is `to` after `n` steps and not before. */
  lemma Distance(from: nat, to: nat, k: nat, n: nat, size: nat)
    requires from < size && to < size && n == Slot(to - from, size) && k <= n
    ensures Slot(from + k, size) == to <==> k == n
  {
    WrapsLeft(to - from, from, size);
    SlotIs(to, size);
    assert Slot(from + n, size) == to;
    if k < n { SlotsDiffer(from + k, from + n, size); }
  }

  lemma Advance(from: nat, to: nat, avail: nat, extra: nat, size: nat)
    requires from < size && to < size && avail == Slot(to - from, size) && avail + extra < size
    ensures Slot(to - Slot(from - extra, size), size) == avail + extra
  {
    WrapsRight(to, from - extra, size);
    assert to - (from - extra) == (to - from) + extra;
    WrapsLeft(to - from, extra, size);
    SlotIs(avail + extra, size);
  }

  /** `i` slots before `start` are filled; the last one filled is `at`, with `ts`. */
  ghost predicate FilledUpTo(ring: seq<nat>, before: seq<nat>, start: nat, i: nat, period: nat, at: nat, ts: nat) {
    && 0 < |ring| == |before| && start < |ring| && i < |ring|
    && at == Slot(start - i, |ring|)
    && ts == (if i == 0 then before[start] else Backfill(before[start], period, i)[0])
    && Window(ring, start - i, |ring|) == Backfill(before[start], period, i) + Window(before, start, |ring| - i)
  }

  lemma SlotIs(i: nat, size: nat)
    requires i < size
    ensures Slot(i, size) == i
  {
    DivIs(i, size, 0);
  }

  lemma SlotBefore(i: int, size: nat)
    requires size > 0
    ensures Slot(Slot(i, size) - 1, size) == Slot(i - 1, size)
  {
    WrapsLeft(i, -1, size);
  }

  lemma FillStep(ring: seq<nat>, before: seq<nat>, start: nat, i: nat, period: nat, at: nat, ts: nat)
    requires FilledUpTo(ring, before, start, i, period, at, ts) && i + 1 < |ring|
    ensures var to := Slot(at - 1, |ring|);
            FilledUpTo(ring[to := Back(ts, period)], before, start, i + 1, period, to, Back(ts, period))
  {
    hide Slot, Window, Back;
    var filled, rest := Backfill(before[start], period, i), Window(before, start, |ring| - i);
    SlotBefore(start - i, |ring|);
    WriteBefore(ring, start - i, Back(ts, period));
    WindowPrefix(ring, start - i, |ring| - 1, |ring|);
    WindowPrefix(before, start, |ring| - i - 1, |ring| - i);
    TakeJoined(filled, rest, |ring| - i - 1);
    Assoc([Back(ts, period)], filled, rest[..|ring| - i - 1]);
    assert Backfill(before[start], period, i + 1) == [Back(ts, period)] + filled;
  }

  // ---------------------------------------------------------------- what a clean clock shows

  /** After the first update, the consumers find enough timestamps and no more than that, unless the hardware wrote
    more; the hardware's own are among them unchanged, and every distance up to the first of those is regular. */
  lemma EnoughAndRegular(hw: seq<nat>, minValid: nat, nominal: nat, jitter: nat)
    requires hw != [] && nominal < U32
    ensures var extra := Extra(|hw|, minValid); var w := Filled(hw, extra, nominal, jitter);
            && |w| == (if |hw| < minValid then minValid else |hw|) && w[extra..] == hw
            && forall k :: 0 <= k < extra ==> Regular(Gap(w[k], w[k + 1]), nominal, jitter)
  {
    FilledGaps(hw, Extra(|hw|, minValid), nominal, jitter);
  }

  lemma {:induction false} FilledGaps(hw: seq<nat>, extra: nat, nominal: nat, jitter: nat)
    requires hw != [] && nominal < U32
    ensures var w := Filled(hw, extra, nominal, jitter);
            forall k :: 0 <= k < extra ==> Regular(Gap(w[k], w[k + 1]), nominal, jitter)
    decreases extra
  {
    if extra > 0 {
      FilledGaps(hw, extra - 1, nominal, jitter);
      FilledRegular(hw, extra, nominal, jitter);
      var w, after := Filled(hw, extra, nominal, jitter), Filled(hw, extra - 1, nominal, jitter);
      assert w[1..] == after;
      forall k | 0 <= k < extra ensures Regular(Gap(w[k], w[k + 1]), nominal, jitter) {
        if k > 0 { assert w[k] == after[k - 1] && w[k + 1] == after[k]; }
      }
    }
  }

  /** With at least two timestamps to be valid, the first check counts what is irregular in the hardware's timestamps,
    and their first distance twice when nothing had to be filled in. */
  lemma FirstErrorsAre(hw: seq<nat>, minValid: nat, nominal: nat, jitter: nat)
    requires hw != [] && nominal < U32 && minValid >= 2
    ensures var extra := Extra(|hw|, minValid); var w := Filled(hw, extra, nominal, jitter);
            && |w| >= 2
            && FirstErrors(w, w[1], nominal, jitter) ==
               BadGaps(hw, nominal, jitter)
               + if extra == 0 && !Regular(Gap(hw[0], hw[1]), nominal, jitter) then 1 else 0
  {
    var extra := Extra(|hw|, minValid);
    FirstCheck(hw, extra, Filled(hw, extra, nominal, jitter)[1], nominal, jitter);
    if extra == 0 { assert Filled(hw, extra, nominal, jitter) == hw; }
  }

  /** A regular clock is never reported irregular at its first update, whatever the ring held before, exactly when at
    least two timestamps have to be valid or the hardware wrote at least two. */
  lemma CleanStartExact(hw: seq<nat>, minValid: nat, nominal: nat, jitter: nat)
    requires hw != [] && nominal < U32 && jitter < U32 / 2 && BadGaps(hw, nominal, jitter) == 0
    ensures (forall next | NextInRing(hw, minValid, nominal, jitter, next) ::
               StartErrors(hw, minValid, nominal, jitter, next) == 0)
            <==> minValid >= 2 || |hw| >= 2
  {
    if minValid >= 2 || |hw| >= 2 {
      forall next | NextInRing(hw, minValid, nominal, jitter, next)
        ensures StartErrors(hw, minValid, nominal, jitter, next) == 0
      {
        CleanStart(hw, minValid, nominal, jitter, next);
      }
    } else {
      var next := hw[0] + nominal + U32 / 2;
      OneTimestamp(hw, minValid, nominal, jitter, next);
    }
  }

  /** What the ring may hold behind the first of the valid timestamps: anything, if there is only one. */
  predicate NextInRing(hw: seq<nat>, minValid: nat, nominal: nat, jitter: nat, next: nat)
    requires hw != []
  {
    var w := Filled(hw, Extra(|hw|, minValid), nominal, jitter);
    |w| > 1 ==> next == w[1]
  }

  function StartErrors(hw: seq<nat>, minValid: nat, nominal: nat, jitter: nat, next: nat): (n: nat)
    requires hw != []
  {
    FirstErrors(Filled(hw, Extra(|hw|, minValid), nominal, jitter), next, nominal, jitter)
  }

  lemma CleanStart(hw: seq<nat>, minValid: nat, nominal: nat, jitter: nat, next: nat)
    requires hw != [] && nominal < U32 && BadGaps(hw, nominal, jitter) == 0
    requires NextInRing(hw, minValid, nominal, jitter, next) && (minValid >= 2 || |hw| >= 2)
    ensures StartErrors(hw, minValid, nominal, jitter, next) == 0
  {
    FirstCheck(hw, Extra(|hw|, minValid), next, nominal, jitter);
    if Extra(|hw|, minValid) == 0 { FirstGapClean(hw, nominal, jitter); }
  }

  lemma OneTimestamp(hw: seq<nat>, minValid: nat, nominal: nat, jitter: nat, next: nat)
    requires |hw| == 1 && minValid < 2 && nominal < U32 && jitter < U32 / 2
    requires next == hw[0] + nominal + U32 / 2
    ensures NextInRing(hw, minValid, nominal, jitter, next) && StartErrors(hw, minValid, nominal, jitter, next) > 0
  {
    FilledNothing(hw, nominal, jitter);
    FirstCheck(hw, 0, next, nominal, jitter);
    FarAway(hw[0], nominal);
  }

  lemma FarAway(t: nat, nominal: nat)
    requires nominal < U32
    ensures AbsDist(Gap(t, t + nominal + U32 / 2), nominal) == U32 / 2
  {
    assert t + nominal + U32 / 2 - t == nominal + U32 / 2;
    WrapsLeft(nominal + U32 / 2, 0 - nominal, U32);
    DivIs(U32 / 2, U32, 0);
  }

  lemma FirstGapClean(hw: seq<nat>, nominal: nat, jitter: nat)
    requires |hw| >= 2 && BadGaps(hw, nominal, jitter) == 0
    ensures Regular(Gap(hw[0], hw[1]), nominal, jitter) && Filled(hw, 0, nominal, jitter) == hw
  {
    BadGapsOne(hw[0], hw[1..], nominal, jitter);
    assert [hw[0]] + hw[1..] == hw;
  }
}
