/**
 What the CRF listener measures and when it changes state, told in terms of the timestamps it received: how the period
 follows them, what a timeout extrapolates from them, and that enough regular ones always lock the listener again.
 */
module CrfRecovery {
  import opened WrapArithmetic
  import opened Crf

  // ---------------------------------------------------------------- measuring

  /** The timestamps whose distances a batch is measured by: with the last one before it, if there was one. */
  function Measured(c: Crf, ts: seq<nat>): (all: seq<nat>) {
    (if c.timestamp > 0 then [c.receivedLast] else []) + ts
  }

  predicate AllApart(ts: seq<nat>, p: nat) {
    forall i {:trigger ts[i]} :: 0 < i < |ts| ==> Gap(ts[i - 1], ts[i]) == p
  }

  /** A batch jumps exactly when one of its distances is irregular, the first one counted from the timestamp before. */
  lemma {:induction false} JumpsExact(c: Crf, cfg: Config, ts: seq<nat>)
    requires Fits(cfg) && InRange(cfg, c.period) && c.timestamp <= TIMESTAMP_COUNT_MAX
    ensures Jumps(c, cfg, ts) <==> !AllRegular(Measured(c, ts), cfg)
  {
    hide Regular, Gap, MeasureOne, AllRegular;
    if ts == [] { NothingIrregular(Measured(c, ts), cfg); }
    if ts != [] {
      var before, n := ts[..|ts| - 1], |ts| - 1;
      JumpsExact(c, cfg, before);
      MeasureFacts(c, cfg, before);
      RegularGrows(Measured(c, before), ts[n], cfg);
      assert Measured(c, ts) == Measured(c, before) + [ts[n]];
    }
  }

  lemma NothingIrregular(ts: seq<nat>, cfg: Config)
    requires |ts| <= 1
    ensures AllRegular(ts, cfg)
  {
  }

  lemma RegularGrows(ts: seq<nat>, t: nat, cfg: Config)
    ensures AllRegular(ts + [t], cfg) <==>
              AllRegular(ts, cfg) && (ts != [] ==> Regular(cfg, Gap(ts[|ts| - 1], t)))
  {
    hide Regular;
    var all := ts + [t];
    if AllRegular(all, cfg) {
      forall i {:trigger ts[i]} | 0 < i < |ts| ensures Regular(cfg, Gap(ts[i - 1], ts[i])) {
        assert all[i] == ts[i];
      }
      if ts != [] { assert all[|ts|] == t; }
    }
  }

  /** On timestamps that wrap: a distance is regular when it is off by at most a 64th of the nominal period. */
  lemma RegularExact(cfg: Config, from: nat, period: nat)
    requires period < U32 && cfg.nominal <= U32 / 2 && period <= cfg.nominal + U32 / 2
    ensures var off := if period < cfg.nominal then cfg.nominal - period else period - cfg.nominal;
            Regular(cfg, Gap(from % U32, (from + period) % U32)) <==> 64 * off <= cfg.nominal
  {
    GapIs(from, period);
    AbsDistIs(cfg.nominal, period - cfg.nominal);
    DivIs(period, U32, 0);
    DivIs(cfg.nominal, U32, 0);
  }

  function Least(a: nat, b: nat): (n: nat) {
    if a <= b then a else b
  }

  /** The counter counts every timestamp of a regular batch on from where it was, or from the start when the batch
    begins with a jump. */
  lemma {:induction false} CountIs(c: Crf, cfg: Config, ts: seq<nat>)
    requires Fits(cfg) && InRange(cfg, c.period) && c.timestamp <= TIMESTAMP_COUNT_MAX
    requires ts != [] && AllRegular(ts, cfg)
    ensures Measure(c, cfg, ts).timestamp ==
            Least(if Jumps(c, cfg, ts) then |ts| else c.timestamp + |ts|, TIMESTAMP_COUNT_MAX)
  {
    var before, n := ts[..|ts| - 1], |ts| - 1;
    MeasureFacts(c, cfg, before);
    if before != [] {
      RegularGrows(before, ts[n], cfg);
      assert before + [ts[n]] == ts;
      CountIs(c, cfg, before);
    }
  }

  /** Rounding aside, the new period is three parts of the old one and one of the distance just measured: it lies
    between the two. */
  lemma SmoothedBetween(p: nat, q: nat)
    ensures 3 * p + q - 2 <= 4 * Smoothed(p, q) <= 3 * p + q + 4
    ensures p <= q ==> p <= Smoothed(p, q) <= q + 1
    ensures q <= p ==> q <= Smoothed(p, q) <= p + 1
  {
    SmoothedSame(p);
    SmoothedSame(q);
    SmoothedMonotone(if p <= q then p else q, if p <= q then p else q, p, q);
    SmoothedMonotone(p, q, if p <= q then q else p, if p <= q then q else p);
  }

  lemma SmoothedSame(p: nat)
    ensures p <= Smoothed(p, p) <= Smoothed(p + 1, p) <= p + 1
  {
    var k, r := p / 4, p % 4;
    assert p == 4 * k + r;
  }

  lemma SmoothedStays(period: nat, p: nat)
    requires p <= period <= p + 1
    ensures p <= Smoothed(period, p) <= p + 1
  {
    SmoothedSame(p);
  }

  /** One more regular timestamp: the first distance is taken as the period, every later one moves it. */
  lemma PeriodMoves(c: Crf, cfg: Config, t: nat)
    requires c.timestamp > 0 && Regular(cfg, Gap(c.receivedLast, t))
    ensures var q, p := Gap(c.receivedLast, t), MeasureOne(c, cfg, t).period;
            && (c.timestamp == 1 ==> p == q)
            && (c.timestamp > 1 ==> 3 * c.period + q - 2 <= 4 * p <= 3 * c.period + q + 4)
            && (c.timestamp > 1 && c.period <= q ==> c.period <= p <= q + 1)
            && (c.timestamp > 1 && q <= c.period ==> q <= p <= c.period + 1)
  {
    SmoothedBetween(c.period, Gap(c.receivedLast, t));
  }

  /** Timestamps that are all `p` apart, from the first one received or the first after a jump: the measured period is
    `p`, rounded up at most. */
  lemma {:induction false} SteadyPeriod(c: Crf, cfg: Config, ts: seq<nat>, p: nat)
    requires Fits(cfg) && InRange(cfg, c.period) && c.timestamp <= 1
    requires AllApart(Measured(c, ts), p) && Regular(cfg, p)
    ensures |Measured(c, ts)| == 2 ==> Measure(c, cfg, ts).period == p
    ensures |Measured(c, ts)| >= 2 ==> p <= Measure(c, cfg, ts).period <= p + 1
    ensures Measure(c, cfg, ts).timestamp == Least(|Measured(c, ts)|, TIMESTAMP_COUNT_MAX)
  {
    if ts != [] {
      var before, n := ts[..|ts| - 1], |ts| - 1;
      var all := Measured(c, ts);
      assert all == Measured(c, before) + [ts[n]];
      ApartPrefix(Measured(c, before), ts[n], p);
      SteadyPeriod(c, cfg, before, p);
      MeasureFacts(c, cfg, before);
      SteadyStep(Measure(c, cfg, before), cfg, ts[n], p, |Measured(c, before)|);
      hide MeasureOne, Gap, Regular;
    }
  }

  lemma ApartPrefix(ts: seq<nat>, t: nat, p: nat)
    requires AllApart(ts + [t], p)
    ensures AllApart(ts, p) && (ts != [] ==> Gap(ts[|ts| - 1], t) == p)
  {
    hide Gap;
    var all := ts + [t];
    assert all[|ts|] == t;
    forall i {:trigger ts[i]} | 0 < i < |ts| ensures Gap(ts[i - 1], ts[i]) == p { assert all[i] == ts[i]; }
  }

  /** `n` timestamps are counted, all `p` apart, and one more is received. */
  lemma SteadyStep(m: Crf, cfg: Config, t: nat, p: nat, n: nat)
    requires m.timestamp == Least(n, TIMESTAMP_COUNT_MAX) && Regular(cfg, p)
    requires n > 0 ==> Gap(m.receivedLast, t) == p
    requires n >= 2 ==> p <= m.period <= p + 1
    ensures var r := MeasureOne(m, cfg, t);
            && r.timestamp == Least(n + 1, TIMESTAMP_COUNT_MAX)
            && (n == 1 ==> r.period == p) && (n >= 1 ==> p <= r.period <= p + 1)
  {
    hide Gap, Regular;
    if n >= 2 { SmoothedStays(m.period, p); }
  }

  /** How far a period is from the four values around `p` at which rounding may hold it. */
  function Off(period: nat, p: nat): (d: nat) {
    if period + 2 < p then p - 2 - period else if period > p + 4 then period - p - 4 else 0
  }

  /** Whatever was measured before, timestamps that are `p` apart bring the period to `p`, up to what rounding holds: by
    at least one with each timestamp. */
  lemma {:induction false} PeriodConverges(c: Crf, cfg: Config, ts: seq<nat>, p: nat)
    requires Fits(cfg) && InRange(cfg, c.period) && 1 < c.timestamp <= TIMESTAMP_COUNT_MAX
    requires AllApart(Measured(c, ts), p) && Regular(cfg, p)
    ensures var m := Measure(c, cfg, ts);
            Off(m.period, p) <= (if Off(c.period, p) > |ts| then Off(c.period, p) - |ts| else 0) && m.timestamp > 1
  {
    if ts != [] {
      var before, n := ts[..|ts| - 1], |ts| - 1;
      var all := Measured(c, ts);
      assert all[..|all| - 1] == Measured(c, before);
      PeriodConverges(c, cfg, before, p);
      MeasureFacts(c, cfg, before);
      var m := Measure(c, cfg, before);
      assert Gap(m.receivedLast, ts[n]) == p by { assert all[|all| - 1] == ts[n]; }
      PeriodMoves(m, cfg, ts[n]);
    }
  }

  // ---------------------------------------------------------------- extrapolating

  lemma {:induction false} GeneratedAt(start: nat, period: nat, n: nat, k: nat)
    requires k < n
    ensures Generated(start, period, n)[k] == (start + (k + 1) * period) % U32
  {
    if k < n - 1 {
      GeneratedAt(start, period, n - 1, k);
    } else if n > 1 {
      GeneratedAt(start, period, n - 1, n - 2);
      WrapsLeft(start + (n - 1) * period, period, U32);
      assert (n - 1) * period + period == n * period;
    }
  }

  /** What is handed over while the network's timestamps are not used: the last one handed over, continued a period at a
    time, or from a period after the present when there is none. */
  lemma Extrapolates(r: Run, cfg: Config, ev: Event, k: nat)
    requires Fits(cfg) && Sound(r, cfg) && ValidEvent(ev) && k < Count(ev)
    requires !Decide(r.crf, cfg, ev).useNetwork
    ensures var s := Step(r, cfg, ev);
            var last := if r.log == [] then (ev.gptp + s.crf.period) % U32 else r.log[|r.log| - 1].ts;
            && |s.log| == |r.log| + Count(ev)
            && s.log[|r.log| + k] == Handed((last + (k + 1) * s.crf.period) % U32, false)
  {
    var d := Decide(r.crf, cfg, ev);
    DecisionKeeps(r.crf, cfg, ev);
    hide Decide, Settled, Watching;
    var last := if r.log == [] then (ev.gptp + d.crf.period) % U32 else r.log[|r.log| - 1].ts;
    var ts := HandedOver(d, ev);
    assert ts == Generated(last, d.crf.period, Count(ev));
    GeneratedAt(last, d.crf.period, Count(ev), k);
    assert Batch(ts, false)[k] == Handed(ts[k], false);
  }

  /** A decision does not touch what was handed over last, and flags only what comes from the network. */
  lemma DecisionKeeps(c: Crf, cfg: Config, ev: Event)
    ensures var d := Decide(c, cfg, ev);
            d.crf.tsLast == c.tsLast && d.crf.tsLastSet == c.tsLastSet && (d.stitch ==> d.useNetwork)
  {
    if ev.Timestamps? {
      MeasureKeeps(Start(c), cfg, ev.ts);
    }
  }

  lemma {:induction false} MeasureKeeps(c: Crf, cfg: Config, ts: seq<nat>)
    ensures var m := Measure(c, cfg, ts);
            m == c.(period := m.period, timestamp := m.timestamp, receivedLast := m.receivedLast)
  {
    if ts != [] { MeasureKeeps(c, cfg, ts[..|ts| - 1]); }
  }

  lemma {:induction false} MeasureJoins(c: Crf, cfg: Config, a: seq<nat>, b: seq<nat>)
    ensures Measure(c, cfg, a + b) == Measure(Measure(c, cfg, a), cfg, b)
  {
    if b == [] {
      assert a + b == a;
    } else {
      MeasureJoins(c, cfg, a, b[..|b| - 1]);
      assert (a + b)[..|a| + |b| - 1] == a + b[..|b| - 1];
    }
  }

  /** As long as regular timestamps keep coming, they are handed over as they are, and the listener knows no more and no
    less than they tell. */
  lemma {:induction false} LockedMeasures(cfg: Config, evs: seq<Event>, k: nat)
    requires Fits(cfg) && ValidEvents(evs) && k <= |evs| && forall j :: 0 <= j < k ==> evs[j].Timestamps?
    requires AllRegular(AfterFirst(cfg, evs, k).received, cfg)
    ensures Knows(AfterFirst(cfg, evs, k), cfg)
  {
    hide Knows, Step, Sound, Regular;
    if k == 0 {
      KnowsNothing(cfg);
    } else {
      var q, ev := AfterFirst(cfg, evs, k - 1), evs[k - 1];
      RunSound(cfg, evs, k - 1);
      StepReceives(q, cfg, ev);
      RegularPrefix(q.received, ev.ts, cfg);
      LockedMeasures(cfg, evs, k - 1);
      LockedStep(q, cfg, ev);
    }
  }

  lemma StepReceives(q: Run, cfg: Config, ev: Event)
    requires ValidEvent(ev) && ev.Timestamps?
    ensures Step(q, cfg, ev).received == q.received + ev.ts
  {
  }

  lemma KnowsNothing(cfg: Config)
    ensures Knows(Start0(cfg), cfg)
  {
  }

  /** What the timestamps received so far tell, all of them regular. */
  ghost predicate Knows(r: Run, cfg: Config) {
    && r.log == Batch(r.received, false)
    && r.crf == Measure(Init(cfg), cfg, r.received).(tsLast := r.crf.tsLast, tsLastSet := r.crf.tsLastSet)
    && r.crf.state.Locked?
  }

  lemma LockedStep(q: Run, cfg: Config, ev: Event)
    requires Fits(cfg) && Sound(q, cfg) && ValidEvent(ev) && ev.Timestamps?
    requires Knows(q, cfg) && AllRegular(q.received + ev.ts, cfg)
    ensures Knows(Step(q, cfg, ev), cfg)
  {
    MeasureJoins(Init(cfg), cfg, q.received, ev.ts);
    MeasureFacts(Init(cfg), cfg, q.received);
    MeasureFrame(Measure(Init(cfg), cfg, q.received), cfg, ev.ts, q.crf.tsLast, q.crf.tsLastSet);
    RegularSuffix(q.received, ev.ts, cfg);
    JumpsExact(q.crf, cfg, ev.ts);
    BatchJoins(q.received, ev.ts);
    LockedDecides(q, cfg, ev);
    hide Step, Measure, Jumps, Regular, Settled, Watching;
  }

  lemma LockedDecides(q: Run, cfg: Config, ev: Event)
    requires ValidEvent(ev) && ev.Timestamps? && q.crf.state.Locked? && !Jumps(q.crf, cfg, ev.ts)
    ensures var m := Measure(q.crf, cfg, ev.ts);
            && m.state.Locked?
            && Step(q, cfg, ev) == Run(m.(tsLast := ev.ts[|ev.ts| - 1], tsLastSet := true),
                                      q.log + Batch(ev.ts, false), q.received + ev.ts)
  {
    MeasureKeeps(q.crf, cfg, ev.ts);
    hide Measure, Jumps;
  }

  lemma BatchJoins(a: seq<nat>, b: seq<nat>)
    ensures Batch(a, false) + Batch(b, false) == Batch(a + b, false)
  {
  }

  lemma RegularPrefix(a: seq<nat>, b: seq<nat>, cfg: Config)
    requires AllRegular(a + b, cfg)
    ensures AllRegular(a, cfg) && AllRegular(b, cfg)
  {
    hide Regular;
    var all := a + b;
    forall i {:trigger a[i]} | 0 < i < |a| ensures Regular(cfg, Gap(a[i - 1], a[i])) {
      assert all[i] == a[i];
    }
    forall i {:trigger b[i]} | 0 < i < |b| ensures Regular(cfg, Gap(b[i - 1], b[i])) {
      assert all[|a| + i] == b[i] && all[|a| + i - 1] == b[i - 1];
    }
  }

  lemma RegularSuffix(a: seq<nat>, b: seq<nat>, cfg: Config)
    requires AllRegular(a + b, cfg)
    ensures a != [] ==> AllRegular([a[|a| - 1]] + b, cfg)
    ensures AllRegular(b, cfg)
  {
    RegularPrefix(a, b, cfg);
    if a != [] {
      assert a[..|a| - 1] + ([a[|a| - 1]] + b) == a + b;
      RegularPrefix(a[..|a| - 1], [a[|a| - 1]] + b, cfg);
    }
  }

  lemma {:induction false} MeasureFrame(c: Crf, cfg: Config, ts: seq<nat>, last: nat, lastSet: bool)
    ensures Measure(c.(tsLast := last, tsLastSet := lastSet), cfg, ts) ==
            Measure(c, cfg, ts).(tsLast := last, tsLastSet := lastSet)
    ensures Jumps(c.(tsLast := last, tsLastSet := lastSet), cfg, ts) == Jumps(c, cfg, ts)
  {
    if ts != [] { MeasureFrame(c, cfg, ts[..|ts| - 1], last, lastSet); }
  }

  /** Before anything is received, the period is the nominal one. */
  lemma {:induction false} NominalBefore(cfg: Config, evs: seq<Event>, k: nat)
    requires ValidEvents(evs) && k <= |evs| && forall j :: 0 <= j < k ==> evs[j].Timeout?
    ensures AfterFirst(cfg, evs, k).crf.period == cfg.nominal && AfterFirst(cfg, evs, k).received == []
  {
    if k > 0 { NominalBefore(cfg, evs, k - 1); }
  }

  /** When nothing comes after two timestamps or more that were all `p` apart, the listener continues them: after two of
    them exactly, with `p`, and after more with `p` rounded up at most. */
  lemma TimeoutContinues(cfg: Config, evs: seq<Event>, r: Run, p: nat, n: nat, gptp: nat, k: nat)
    requires Fits(cfg) && ValidEvents(evs) && forall j :: 0 <= j < |evs| ==> evs[j].Timestamps?
    requires r == AfterFirst(cfg, evs, |evs|) && |r.received| >= 2
    requires AllApart(r.received, p) && Regular(cfg, p) && k < n && gptp < U32
    ensures Continued(r, Step(r, cfg, Timeout(n, gptp)), p, k)
  {
    hide AfterFirst, Regular, Sound, Knows;
    RunSound(cfg, evs, |evs|);
    ApartIsRegular(r.received, p, cfg);
    LockedMeasures(cfg, evs, |evs|);
    KnownContinues(r, cfg, p, n, gptp, k);
  }

  /** The `k`-th timestamp after those received. */
  predicate Continued(r: Run, s: Run, p: nat, k: nat) {
    && |r.received| >= 2 && |s.log| > |r.received| + k
    && p <= s.crf.period <= p + 1
    && (|r.received| == 2 ==> s.crf.period == p)
    && s.log[|r.received| + k] == Handed((r.received[|r.received| - 1] + (k + 1) * s.crf.period) % U32, false)
  }

  lemma KnownContinues(r: Run, cfg: Config, p: nat, n: nat, gptp: nat, k: nat)
    requires Fits(cfg) && Sound(r, cfg) && Knows(r, cfg) && |r.received| >= 2
    requires AllApart(r.received, p) && Regular(cfg, p) && k < n && gptp < U32
    ensures Continued(r, Step(r, cfg, Timeout(n, gptp)), p, k)
  {
    hide Regular, Step, Sound, Knows, AllApart, Decide;
    KnowsPeriod(r, cfg, p, Timeout(n, gptp));
    KnowsLast(r, cfg);
    Extrapolates(r, cfg, Timeout(n, gptp), k);
  }

  lemma KnowsLast(r: Run, cfg: Config)
    requires Knows(r, cfg) && r.received != []
    ensures |r.log| == |r.received| && r.log[|r.log| - 1].ts == r.received[|r.received| - 1]
  {
    hide Measure;
  }

  lemma KnowsPeriod(r: Run, cfg: Config, p: nat, ev: Event)
    requires Fits(cfg) && Knows(r, cfg) && |r.received| >= 2 && AllApart(r.received, p) && Regular(cfg, p)
    requires ValidEvent(ev) && ev.Timeout?
    ensures !Decide(r.crf, cfg, ev).useNetwork
    ensures p <= Step(r, cfg, ev).crf.period <= p + 1 && (|r.received| == 2 ==> Step(r, cfg, ev).crf.period == p)
  {
    assert Measured(Init(cfg), r.received) == r.received;
    SteadyPeriod(Init(cfg), cfg, r.received, p);
    hide Measure, Regular;
  }

  lemma ApartIsRegular(ts: seq<nat>, p: nat, cfg: Config)
    requires AllApart(ts, p) && Regular(cfg, p)
    ensures AllRegular(ts, cfg)
  {
    hide Regular;
  }

  // ---------------------------------------------------------------- states

  /** The timestamp that the first one of a batch is compared with, if any: the last one received while it is followed,
    the last one handed over while the listener generates. */
  function Reference(c: Crf): (ref: seq<nat>) {
    if c.state.FreeWheeling? then [c.tsLast]
    else if c.timestamp == 0 then []
    else if c.state.LockedToFreeWheeling? then [c.tsLast]
    else [c.receivedLast]
  }

  /** The state after an event, from the state before it, whether the batch continues its reference regularly, and how
    many timestamps in a row have. */
  lemma StateAfter(r: Run, cfg: Config, ev: Event)
    requires Fits(cfg) && Sound(r, cfg) && ValidEvent(ev)
    ensures ev.Timeout? ==>
              Step(r, cfg, ev).crf.state == if r.crf.state.Locked? then LockedToFreeWheeling else FreeWheeling
    ensures ev.Timestamps? ==>
              var regular := AllRegular(Reference(r.crf) + ev.ts, cfg);
              Step(r, cfg, ev).crf.state ==
              if regular && (r.crf.state.FreeWheelingToLocked? ==>
                               Least(r.crf.timestamp + |ev.ts|, TIMESTAMP_COUNT_MAX) > cfg.delay) then Locked
              else if regular || r.crf.state.FreeWheeling? then FreeWheelingToLocked
              else FreeWheeling
  {
    if ev.Timestamps? {
      var from := Start(r.crf);
      MeasureFacts(from, cfg, ev.ts);
      JumpsExact(from, cfg, ev.ts);
      assert Measured(from, ev.ts) == Reference(r.crf) + ev.ts;
      if r.crf.state.FreeWheelingToLocked? && AllRegular(Reference(r.crf) + ev.ts, cfg) {
        RegularPrefix(Reference(r.crf), ev.ts, cfg);
        CountIs(from, cfg, ev.ts);
      }
    }
  }

  /** Of what an event hands over, at most the first timestamp is flagged, and that one exactly when the listener has
    locked again after it had started to follow the network. */
  lemma FlaggedOnce(r: Run, cfg: Config, ev: Event, i: nat)
    requires Fits(cfg) && Sound(r, cfg) && ValidEvent(ev)
    requires |r.log| <= i < |Step(r, cfg, ev).log|
    ensures var s := Step(r, cfg, ev);
            s.log[i].stitch <==> i == |r.log| && r.crf.state.FreeWheelingToLocked? && s.crf.state.Locked?
  {
    if ev.Timestamps? { MeasureFacts(Start(r.crf), cfg, ev.ts); }
    hide Measure, Jumps, Settled, Watching, HandedOver;
  }

  /** The listener follows the network: `n` timestamps in a row have been regular. */
  predicate Follows(r: Run, last: nat, n: nat) {
    && r.crf.receivedLast == last && r.crf.timestamp > 0
    && (r.crf.state.Locked? || (r.crf.state.FreeWheelingToLocked? && r.crf.timestamp >= Least(n, TIMESTAMP_COUNT_MAX)))
  }

  lemma KeepsFollowing(r: Run, cfg: Config, ev: Event, last: nat, n: nat)
    requires Fits(cfg) && Sound(r, cfg) && ValidEvent(ev) && ev.Timestamps? && cfg.delay < TIMESTAMP_COUNT_MAX
    requires Follows(r, last, n) && AllRegular([last] + ev.ts, cfg)
    ensures Follows(Step(r, cfg, ev), ev.ts[|ev.ts| - 1], n + |ev.ts|)
    ensures n + |ev.ts| > cfg.delay ==> Step(r, cfg, ev).crf.state.Locked?
  {
    StateAfter(r, cfg, ev);
    StepSound(r, cfg, ev);
    var from := Start(r.crf);
    MeasureFacts(from, cfg, ev.ts);
    JumpsExact(from, cfg, ev.ts);
    RegularPrefix([last], ev.ts, cfg);
    CountIs(from, cfg, ev.ts);
  }

  /** A batch that is regular in itself leaves a listener that does not follow free-wheeling or following it. */
  lemma StartsFollowing(r: Run, cfg: Config, ev: Event)
    requires Fits(cfg) && Sound(r, cfg) && ValidEvent(ev) && ev.Timestamps? && AllRegular(ev.ts, cfg)
    ensures var s := Step(r, cfg, ev);
            && (s.crf.state.FreeWheeling? || Follows(s, ev.ts[|ev.ts| - 1], 0))
            && (r.crf.state.FreeWheeling? ==> Follows(s, ev.ts[|ev.ts| - 1], |ev.ts|))
  {
    StateAfter(r, cfg, ev);
    StepSound(r, cfg, ev);
    var from := Start(r.crf);
    MeasureFacts(from, cfg, ev.ts);
    JumpsExact(from, cfg, ev.ts);
    CountIs(from, cfg, ev.ts);
  }

  function Onward(r: Run, cfg: Config, evs: seq<Event>): (s: Run)
    requires ValidEvents(evs)
    decreases |evs|
  {
    if evs == [] then r
    else
      assert ValidEvent(evs[0]);
      Onward(Step(r, cfg, evs[0]), cfg, evs[1..])
  }

  /** Everything received in a number of batches. */
  function Joined(evs: seq<Event>): (ts: seq<nat>)
    requires forall j :: 0 <= j < |evs| ==> evs[j].Timestamps?
  {
    if evs == [] then [] else evs[0].ts + Joined(evs[1..])
  }

  lemma {:induction false} FollowsOn(r: Run, cfg: Config, evs: seq<Event>, last: nat, n: nat)
    requires Fits(cfg) && Sound(r, cfg) && ValidEvents(evs) && cfg.delay < TIMESTAMP_COUNT_MAX && evs != []
    requires forall j :: 0 <= j < |evs| ==> evs[j].Timestamps?
    requires Follows(r, last, n) && AllRegular([last] + Joined(evs), cfg) && n + |Joined(evs)| > cfg.delay
    ensures Onward(r, cfg, evs).crf.state.Locked?
    decreases |evs|
  {
    hide Regular, AllRegular, Sound, Follows, Step;
    var ev := evs[0];
    assert ValidEvent(ev);
    assert [last] + Joined(evs) == ([last] + ev.ts) + Joined(evs[1..]);
    RegularPrefix([last] + ev.ts, Joined(evs[1..]), cfg);
    RegularSuffix([last] + ev.ts, Joined(evs[1..]), cfg);
    KeepsFollowing(r, cfg, ev, last, n);
    StepSound(r, cfg, ev);
    if |evs| == 1 {
      assert evs[1..] == [] && Joined(evs[1..]) == [];
    } else {
      FollowsOn(Step(r, cfg, ev), cfg, evs[1..], ev.ts[|ev.ts| - 1], n + |ev.ts|);
    }
  }

  /** From any state, batches that are regular throughout lock the listener: at the latest when after the first of them
    there were two more, and more timestamps than the delay asks for. */
  lemma Recovers(r: Run, cfg: Config, evs: seq<Event>)
    requires Fits(cfg) && Sound(r, cfg) && ValidEvents(evs) && cfg.delay < TIMESTAMP_COUNT_MAX
    requires |evs| >= 3 && forall j :: 0 <= j < |evs| ==> evs[j].Timestamps?
    requires AllRegular(Joined(evs), cfg) && |Joined(evs[1..])| > cfg.delay
    ensures Onward(r, cfg, evs).crf.state.Locked?
  {
    var first, second, rest := evs[0], evs[1], evs[2..];
    assert evs[1..][1..] == rest;
    assert ValidEvent(first) && ValidEvent(second);
    SecondFollows(r, cfg, first, second, Joined(rest));
    var s := Step(Step(r, cfg, first), cfg, second);
    FollowsOn(s, cfg, rest, second.ts[|second.ts| - 1], |second.ts|);
  }

  lemma SecondFollows(r: Run, cfg: Config, first: Event, second: Event, rest: seq<nat>)
    requires Fits(cfg) && Sound(r, cfg) && ValidEvent(first) && ValidEvent(second) && cfg.delay < TIMESTAMP_COUNT_MAX
    requires first.Timestamps? && second.Timestamps? && AllRegular(first.ts + (second.ts + rest), cfg)
    ensures var s, last := Step(Step(r, cfg, first), cfg, second), second.ts[|second.ts| - 1];
            Sound(s, cfg) && Follows(s, last, |second.ts|) && AllRegular([last] + rest, cfg)
  {
    hide Regular, AllRegular, Sound, Step;
    var q, end := Step(r, cfg, first), first.ts[|first.ts| - 1];
    StepSound(r, cfg, first);
    StepSound(q, cfg, second);
    RegularPrefix(first.ts, second.ts + rest, cfg);
    RegularSuffix(first.ts, second.ts + rest, cfg);
    RegularSuffix(second.ts, rest, cfg);
    assert [end] + (second.ts + rest) == ([end] + second.ts) + rest;
    RegularPrefix([end] + second.ts, rest, cfg);
    RegularPrefix(second.ts, rest, cfg);
    StartsFollowing(r, cfg, first);
    if q.crf.state.FreeWheeling? {
      StartsFollowing(q, cfg, second);
    } else {
      KeepsFollowing(q, cfg, second, end, 0);
    }
  }
}
