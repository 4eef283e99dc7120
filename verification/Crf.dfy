/**
 Clock recovery from a CRF stream (avtp/crf.c). The listener hands timestamps to a clock producer: those received
 from the network while they are regular, and timestamps it generates itself from a smoothed period while they are
 missing or jump. The clock producer is told of a discontinuity by a stitch flag.

 A clock source is attached, so that every batch handed over is a new one.
 */
module Crf {
  import opened WrapArithmetic

  datatype State = Locked | FreeWheeling | FreeWheelingToLocked | LockedToFreeWheeling

  /** `nominal` is the period in nanoseconds, `delay` the number of timestamps that must be regular to lock again. */
  datatype Config = Config(nominal: nat, delay: nat)

  datatype Event = Timeout(count: nat, gptp: nat) | Timestamps(ts: seq<nat>, gptp: nat)

  const TIMESTAMP_COUNT_MAX: nat := 0xffff_ffff

  function PeriodErr(cfg: Config): (e: nat) {
    cfg.nominal / 64
  }

  /** The frequency limits of a CRF format keep three times the period in 32 bits. */
  predicate Fits(cfg: Config) {
    3 * (cfg.nominal + PeriodErr(cfg) + 1) + 2 < U32
  }

  predicate Regular(cfg: Config, period: nat) {
    AbsDist(period, cfg.nominal) <= PeriodErr(cfg)
  }

  predicate InRange(cfg: Config, period: nat) {
    cfg.nominal - PeriodErr(cfg) <= period <= cfg.nominal + PeriodErr(cfg) + 1
  }

  lemma RegularIsInRange(cfg: Config, period: nat)
    requires Fits(cfg) && period < U32
    ensures Regular(cfg, period) <==> cfg.nominal - PeriodErr(cfg) <= period <= cfg.nominal + PeriodErr(cfg)
    ensures Regular(cfg, period) ==> InRange(cfg, period)
  {
    var d := period - cfg.nominal;
    DivIs(d, U32, if d < 0 then -1 else 0);
  }

  // ---------------------------------------------------------------- the listener as a value

  datatype Crf = Crf(state: State, tsLast: nat, tsLastSet: bool, receivedLast: nat, period: nat, timestamp: nat,
                     domainFreeWheeling: bool)

  function Init(cfg: Config): (c: Crf) {
    Crf(Locked, 0, false, 0, cfg.nominal, 0, false)
  }

  /** The smoothed period: three parts of the old one, one of the new, each rounded. */
  function Smoothed(old_: nat, period: nat): (p: nat) {
    (old_ * 3 + 2) / 4 + (period + 2) / 4
  }

  function MeasureOne(c: Crf, cfg: Config, t: nat): (r: Crf) {
    var period := Gap(c.receivedLast, t);
    var jump := c.timestamp > 0 && !Regular(cfg, period);
    var counted := if jump then 0 else c.timestamp;
    c.(period :=
         if c.timestamp == 0 || jump then c.period
         else if c.timestamp == 1 then period
         else Smoothed(c.period, period),
       timestamp := if counted < TIMESTAMP_COUNT_MAX then counted + 1 else counted,
       receivedLast := t)
  }

  function Measure(c: Crf, cfg: Config, ts: seq<nat>): (r: Crf) {
    if ts == [] then c else MeasureOne(Measure(c, cfg, ts[..|ts| - 1]), cfg, ts[|ts| - 1])
  }

  /** Some received timestamp is too far from, or too close to, the one before it. */
  predicate Jumps(c: Crf, cfg: Config, ts: seq<nat>) {
    ts != [] &&
    var before := Measure(c, cfg, ts[..|ts| - 1]);
    || Jumps(c, cfg, ts[..|ts| - 1])
    || (before.timestamp > 0 && !Regular(cfg, Gap(before.receivedLast, ts[|ts| - 1])))
  }

  function Generated(start: nat, period: nat, n: nat): (ts: seq<nat>)
    ensures |ts| == n
  {
    if n == 0 then []
    else
      var before := Generated(start, period, n - 1);
      before + [((if n == 1 then start else before[n - 2]) + period) % U32]
  }

  /** Entering a state, and the mark it leaves in the clock domain. */
  function Enter(c: Crf, state: State): (r: Crf) {
    c.(state := state,
       domainFreeWheeling :=
         if state.FreeWheeling? then true else if state.Locked? then false else c.domainFreeWheeling)
  }

  /** What the listener measures a batch against: in free-wheeling the last timestamp it handed over. */
  function Start(c: Crf): (from: Crf) {
    match c.state
    case FreeWheeling => c.(receivedLast := c.tsLast, timestamp := 1)
    case LockedToFreeWheeling => c.(receivedLast := c.tsLast)
    case Locked | FreeWheelingToLocked => c
  }

  /** What a state handler call decides: the new state, and whether the network's timestamps are used. */
  datatype Decision = Decision(crf: Crf, useNetwork: bool, stitch: bool)

  function Decide(c: Crf, cfg: Config, ev: Event): (d: Decision) {
    match ev
    case Timeout(_, _) =>
      Decision(Enter(c, if c.state.Locked? then LockedToFreeWheeling else FreeWheeling), false, false)
    case Timestamps(ts, _) =>
      var from := Start(c);
      var m := Measure(from, cfg, ts);
      if Jumps(from, cfg, ts) then
        Decision(Enter(m, if c.state.FreeWheeling? then FreeWheelingToLocked else FreeWheeling), false, false)
      else if c.state.FreeWheelingToLocked? && m.timestamp <= cfg.delay then
        Decision(m, false, false)
      else
        Decision(if c.state.Locked? then m else Enter(m, Locked), true, c.state.FreeWheelingToLocked?)
  }

  function Count(ev: Event): (n: nat) {
    match ev case Timeout(count, _) => count case Timestamps(ts, _) => |ts|
  }

  function HandedOver(d: Decision, ev: Event): (ts: seq<nat>)
    ensures |ts| == Count(ev)
  {
    if d.useNetwork && ev.Timestamps? then ev.ts
    else
      Generated(if d.crf.tsLastSet then d.crf.tsLast else (ev.gptp + d.crf.period) % U32, d.crf.period, Count(ev))
  }

  predicate ValidEvent(ev: Event) {
    && Count(ev) > 0
    && ev.gptp < U32
    && (ev.Timestamps? ==> forall i :: 0 <= i < |ev.ts| ==> ev.ts[i] < U32)
  }

  // ---------------------------------------------------------------- runs

  datatype Handed = Handed(ts: nat, stitch: bool)

  function Batch(ts: seq<nat>, stitch: bool): (b: seq<Handed>)
    ensures |b| == |ts|
  {
    seq(|ts|, i requires 0 <= i < |ts| => Handed(ts[i], stitch && i == 0))
  }

  /** A listener, everything it handed over and everything it received. */
  datatype Run = Run(crf: Crf, log: seq<Handed>, received: seq<nat>)

  function Step(r: Run, cfg: Config, ev: Event): (s: Run)
    requires ValidEvent(ev)
  {
    var d := Decide(r.crf, cfg, ev);
    var ts := HandedOver(d, ev);
    Run(d.crf.(tsLast := ts[|ts| - 1], tsLastSet := true),
        r.log + Batch(ts, d.stitch),
        if ev.Timestamps? then r.received + ev.ts else r.received)
  }

  ghost predicate Spaced(log: seq<Handed>, cfg: Config, i: int)
    requires 0 < i < |log|
  {
    log[i].stitch || InRange(cfg, Gap(log[i - 1].ts, log[i].ts))
  }

  /** Any two timestamps handed over one after the other are a period apart, unless the second is flagged. */
  ghost predicate Continuous(log: seq<Handed>, cfg: Config) {
    forall i :: 0 < i < |log| ==> Spaced(log, cfg, i)
  }

  /** The last `n` received timestamps are regular. */
  ghost predicate Streak(received: seq<nat>, n: nat, cfg: Config) {
    && n <= |received|
    && forall i {:trigger received[i]} :: |received| - n < i < |received| ==>
          Regular(cfg, Gap(received[i - 1], received[i]))
  }

  /** What holds of the listener alone. In particular it locks onto the timestamp it handed over last. */
  predicate Settled(c: Crf, cfg: Config) {
    && InRange(cfg, c.period)
    && c.timestamp <= TIMESTAMP_COUNT_MAX
    && c.tsLast < U32
    && (c.state.Locked? ==> c.receivedLast == c.tsLast && (c.timestamp == 0 ==> !c.tsLastSet))
    && (!c.state.Locked? ==> c.tsLastSet)
    && (c.state.FreeWheelingToLocked? ==> 0 < c.timestamp)
    && (c.domainFreeWheeling <==> c.state.FreeWheeling? || c.state.FreeWheelingToLocked?)
  }

  ghost predicate Linked(r: Run) {
    && (r.crf.tsLastSet <==> r.log != [])
    && (r.log != [] ==> r.crf.tsLast == r.log[|r.log| - 1].ts)
  }

  ghost predicate Watching(r: Run, cfg: Config) {
    r.crf.state.FreeWheelingToLocked? ==>
      && Streak(r.received, r.crf.timestamp, cfg)
      && r.received != [] && r.crf.receivedLast == r.received[|r.received| - 1]
  }

  /** What every run keeps. Continuity is not part of it. */
  ghost predicate Sound(r: Run, cfg: Config) {
    Settled(r.crf, cfg) && Linked(r) && Watching(r, cfg)
  }

  lemma SmoothedInRange(cfg: Config, p: nat, q: nat)
    requires InRange(cfg, p) && cfg.nominal - PeriodErr(cfg) <= q <= cfg.nominal + PeriodErr(cfg)
    ensures InRange(cfg, Smoothed(p, q))
  {
    SmoothedMonotone(cfg.nominal - PeriodErr(cfg), cfg.nominal - PeriodErr(cfg), p, q);
    SmoothedMonotone(p, q, cfg.nominal + PeriodErr(cfg) + 1, cfg.nominal + PeriodErr(cfg));
  }

  lemma SmoothedMonotone(p: nat, q: nat, p': nat, q': nat)
    requires p <= p' && q <= q'
    ensures Smoothed(p, q) <= Smoothed(p', q')
  {
  }

  // ---------------------------------------------------------------- measuring

  ghost predicate AllRegular(ts: seq<nat>, cfg: Config) {
    forall i {:trigger ts[i]} :: 0 < i < |ts| ==> Regular(cfg, Gap(ts[i - 1], ts[i]))
  }

  lemma MeasureOneFacts(c: Crf, cfg: Config, t: nat)
    requires Fits(cfg) && InRange(cfg, c.period) && c.timestamp <= TIMESTAMP_COUNT_MAX
    ensures var m := MeasureOne(c, cfg, t);
            && InRange(cfg, m.period) && 0 < m.timestamp <= TIMESTAMP_COUNT_MAX && m.receivedLast == t
            && m == c.(period := m.period, timestamp := m.timestamp, receivedLast := m.receivedLast)
  {
    var period := Gap(c.receivedLast, t);
    RegularIsInRange(cfg, period);
    if c.timestamp > 1 && Regular(cfg, period) { SmoothedInRange(cfg, c.period, period); }
  }

  /** The smoothed period never leaves its range, whatever is received; and a batch without a jump is regular from
    the last timestamp before it on, if there was one. */
  lemma {:induction false} MeasureFacts(c: Crf, cfg: Config, ts: seq<nat>)
    requires Fits(cfg) && InRange(cfg, c.period) && c.timestamp <= TIMESTAMP_COUNT_MAX
    ensures var m := Measure(c, cfg, ts);
            && InRange(cfg, m.period) && m.timestamp <= TIMESTAMP_COUNT_MAX
            && m == c.(period := m.period, timestamp := m.timestamp, receivedLast := m.receivedLast)
            && (ts == [] ==> m == c)
            && (ts != [] ==> 0 < m.timestamp && m.receivedLast == ts[|ts| - 1])
    ensures !Jumps(c, cfg, ts) ==> AllRegular(ts, cfg)
    ensures !Jumps(c, cfg, ts) && ts != [] && c.timestamp > 0 ==> Regular(cfg, Gap(c.receivedLast, ts[0]))
  {
    if ts != [] {
      var before, n := ts[..|ts| - 1], |ts| - 1;
      MeasureFacts(c, cfg, before);
      MeasureOneFacts(Measure(c, cfg, before), cfg, ts[n]);
      if !Jumps(c, cfg, ts) {
        forall i {:trigger ts[i]} | 0 < i < |ts| ensures Regular(cfg, Gap(ts[i - 1], ts[i])) {
          if i < n { assert before[i] == ts[i]; }
        }
      }
    }
  }

  /** The counter is at most the number of received timestamps since the last jump. */
  lemma {:induction false} StreakGrows(c: Crf, cfg: Config, received: seq<nat>, ts: seq<nat>)
    requires Fits(cfg) && InRange(cfg, c.period) && c.timestamp <= TIMESTAMP_COUNT_MAX
    requires 0 < c.timestamp && received != [] && received[|received| - 1] == c.receivedLast
    requires Streak(received, c.timestamp, cfg)
    ensures Streak(received + ts, Measure(c, cfg, ts).timestamp, cfg)
  {
    if ts == [] {
      assert received + ts == received;
    } else {
      var before := ts[..|ts| - 1];
      StreakGrows(c, cfg, received, before);
      MeasureFacts(c, cfg, before);
      StreakAppends(Measure(c, cfg, before), cfg, received + before, ts[|ts| - 1]);
      assert received + ts == received + before + [ts[|ts| - 1]];
    }
  }

  lemma StreakAppends(c: Crf, cfg: Config, received: seq<nat>, t: nat)
    requires received != [] && received[|received| - 1] == c.receivedLast && Streak(received, c.timestamp, cfg)
    requires c.timestamp > 0
    ensures Streak(received + [t], MeasureOne(c, cfg, t).timestamp, cfg)
  {
    StreakExtends(received, c.timestamp, t, cfg);
  }

  /** One more timestamp starts a streak, and a regular one extends it. */
  lemma StreakExtends(received: seq<nat>, n: nat, t: nat, cfg: Config)
    requires received != [] && n > 0 && Streak(received, n, cfg)
    ensures Streak(received + [t], 1, cfg)
    ensures Regular(cfg, Gap(received[|received| - 1], t)) ==>
              forall m :: 0 < m <= n + 1 ==> Streak(received + [t], m, cfg)
  {
    hide Regular;
    var all := received + [t];
    if Regular(cfg, Gap(received[|received| - 1], t)) {
      forall m | 0 < m <= n + 1 ensures Streak(all, m, cfg) {
        forall i {:trigger all[i]} | |all| - m < i < |all| ensures Regular(cfg, Gap(all[i - 1], all[i])) {
          if i < |received| { assert received[i] == all[i]; }
        }
      }
    }
  }

  /** After a jump, the counter counts only timestamps of the same batch. */
  lemma {:induction false} JumpStartsStreak(c: Crf, cfg: Config, ts: seq<nat>)
    requires Fits(cfg) && InRange(cfg, c.period) && c.timestamp <= TIMESTAMP_COUNT_MAX
    requires Jumps(c, cfg, ts)
    ensures Streak(ts, Measure(c, cfg, ts).timestamp, cfg)
  {
    var before, n := ts[..|ts| - 1], |ts| - 1;
    MeasureFacts(c, cfg, before);
    var m := Measure(c, cfg, before);
    if m.timestamp == 0 || Regular(cfg, Gap(m.receivedLast, ts[n])) {
      JumpStartsStreak(c, cfg, before);
      StreakAppends(m, cfg, before, ts[n]);
      assert before + [ts[n]] == ts;
    }
  }

  lemma StreakWithin(received: seq<nat>, ts: seq<nat>, n: nat, cfg: Config)
    requires Streak(ts, n, cfg)
    ensures Streak(received + ts, n, cfg)
  {
    var all := received + ts;
    forall i {:trigger all[i]} | |all| - n < i < |all| ensures Regular(cfg, Gap(all[i - 1], all[i])) {
      assert all[i] == ts[i - |received|] && all[i - 1] == ts[i - |received| - 1];
    }
  }

  // ---------------------------------------------------------------- handing over

  lemma GapOfPeriod(start: nat, period: nat)
    requires period < U32
    ensures Gap(start, (start + period) % U32) == period
  {
    WrapsLeft(start + period, 0 - start, U32);
    DivIs(period, U32, 0);
  }

  ghost predicate AllSpaced(ts: seq<nat>, cfg: Config) {
    forall i {:trigger ts[i]} :: 0 < i < |ts| ==> InRange(cfg, Gap(ts[i - 1], ts[i]))
  }

  lemma {:induction false} GeneratedSpaced(start: nat, period: nat, n: nat, cfg: Config)
    requires Fits(cfg) && InRange(cfg, period)
    ensures AllSpaced(Generated(start, period, n), cfg)
    ensures n > 0 ==> InRange(cfg, Gap(start, Generated(start, period, n)[0]))
    ensures forall i :: 0 <= i < n ==> Generated(start, period, n)[i] < U32
  {
    if n > 0 {
      GeneratedSpaced(start, period, n - 1, cfg);
      GapOfPeriod(if n == 1 then start else Generated(start, period, n - 1)[n - 2], period);
    }
  }

  lemma RegularSpaced(ts: seq<nat>, cfg: Config)
    requires Fits(cfg) && AllRegular(ts, cfg)
    ensures AllSpaced(ts, cfg)
  {
    forall i {:trigger ts[i]} | 0 < i < |ts| ensures InRange(cfg, Gap(ts[i - 1], ts[i])) {
      RegularIsInRange(cfg, Gap(ts[i - 1], ts[i]));
    }
  }

  // ---------------------------------------------------------------- one step

  /** No timestamp was ever received, and the listener has already started to generate. */
  predicate Unprimed(r: Run) {
    r.crf.state.LockedToFreeWheeling? && r.crf.timestamp == 0
  }

  lemma StaysSettled(r: Run, cfg: Config, ev: Event)
    requires Fits(cfg) && Sound(r, cfg) && ValidEvent(ev)
    requires HandedOver(Decide(r.crf, cfg, ev), ev)[Count(ev) - 1] < U32
    ensures Settled(Step(r, cfg, ev).crf, cfg)
  {
    if ev.Timestamps? { MeasureFacts(Start(r.crf), cfg, ev.ts); }
  }

  lemma StreakKept(r: Run, cfg: Config, ev: Event)
    requires Fits(cfg) && Sound(r, cfg) && ValidEvent(ev) && ev.Timestamps?
    requires Decide(r.crf, cfg, ev).crf.state.FreeWheelingToLocked?
    ensures Streak(r.received + ev.ts, Decide(r.crf, cfg, ev).crf.timestamp, cfg)
    ensures Decide(r.crf, cfg, ev).crf.receivedLast == ev.ts[|ev.ts| - 1]
  {
    var from := Start(r.crf);
    MeasureFacts(from, cfg, ev.ts);
    if r.crf.state.FreeWheelingToLocked? {
      StreakGrows(from, cfg, r.received, ev.ts);
    } else {
      JumpStartsStreak(from, cfg, ev.ts);
      StreakWithin(r.received, ev.ts, Measure(from, cfg, ev.ts).timestamp, cfg);
    }
  }

  lemma HandedSpaced(r: Run, cfg: Config, ev: Event)
    requires Fits(cfg) && Sound(r, cfg) && ValidEvent(ev)
    ensures var d := Decide(r.crf, cfg, ev); var ts := HandedOver(d, ev);
            && AllSpaced(ts, cfg) && ts[|ts| - 1] < U32
            && (r.log == [] || d.stitch || (Unprimed(r) && ev.Timestamps?)
                || InRange(cfg, Gap(r.log[|r.log| - 1].ts, ts[0])))
  {
    var d := Decide(r.crf, cfg, ev);
    if ev.Timestamps? { MeasureFacts(Start(r.crf), cfg, ev.ts); }
    if d.useNetwork {
      RegularSpaced(ev.ts, cfg);
      RegularIsInRange(cfg, Gap(Start(r.crf).receivedLast, ev.ts[0]));
    } else {
      GeneratedSpaced(if d.crf.tsLastSet then d.crf.tsLast else (ev.gptp + d.crf.period) % U32,
                      d.crf.period, Count(ev), cfg);
    }
  }

  /** No event is an exception. The counter of timestamps tells whether any was ever received. */
  lemma StepSound(r: Run, cfg: Config, ev: Event)
    requires Fits(cfg) && Sound(r, cfg) && ValidEvent(ev)
    ensures Sound(Step(r, cfg, ev), cfg)
    ensures Step(r, cfg, ev).crf.timestamp > 0 <==> r.crf.timestamp > 0 || ev.Timestamps?
  {
    HandedSpaced(r, cfg, ev);
    StaysSettled(r, cfg, ev);
    if ev.Timestamps? {
      MeasureFacts(Start(r.crf), cfg, ev.ts);
      if Decide(r.crf, cfg, ev).crf.state.FreeWheelingToLocked? { StreakKept(r, cfg, ev); }
    }
  }

  /** What an event hands over is continuous in itself, and continues what came before unless it is the first batch
    received by a listener that already generates. */
  lemma NewGaps(r: Run, cfg: Config, ev: Event, i: nat)
    requires Fits(cfg) && Sound(r, cfg) && ValidEvent(ev)
    requires 0 < i && |r.log| <= i < |Step(r, cfg, ev).log|
    ensures Spaced(Step(r, cfg, ev).log, cfg, i) || (i == |r.log| && Unprimed(r) && ev.Timestamps?)
  {
    var d := Decide(r.crf, cfg, ev);
    var ts := HandedOver(d, ev);
    var log := Step(r, cfg, ev).log;
    HandedSpaced(r, cfg, ev);
    assert log[i] == Batch(ts, d.stitch)[i - |r.log|];
    if i > |r.log| { assert log[i - 1] == Batch(ts, d.stitch)[i - 1 - |r.log|]; }
  }

  lemma StepGrows(r: Run, cfg: Config, ev: Event)
    requires ValidEvent(ev)
    ensures r.log <= Step(r, cfg, ev).log && |r.log| < |Step(r, cfg, ev).log|
  {
  }

  /** Continuity from some place on survives every event but that one, which starts it anew. */
  lemma StaysContinuous(r: Run, cfg: Config, ev: Event, from: nat)
    requires Fits(cfg) && Sound(r, cfg) && ValidEvent(ev)
    requires from <= |r.log| && Continuous(r.log[from..], cfg)
    ensures Continuous(Step(r, cfg, ev).log[if Unprimed(r) && ev.Timestamps? then |r.log| else from..], cfg)
  {
    hide Step;
    StepGrows(r, cfg, ev);
    var start := if Unprimed(r) && ev.Timestamps? then |r.log| else from;
    var log := Step(r, cfg, ev).log;
    var tail, was := log[start..], r.log[from..];
    forall i | 0 < i < |tail| ensures Spaced(tail, cfg, i) {
      assert tail[i] == log[start + i] && tail[i - 1] == log[start + i - 1];
      if start + i < |r.log| {
        assert Spaced(was, cfg, i) && was[i] == log[start + i] && was[i - 1] == log[start + i - 1];
      } else {
        NewGaps(r, cfg, ev, start + i);
      }
    }
  }

  /** An event continues what was handed over before. */
  ghost predicate Continues(r: Run, cfg: Config, ev: Event)
    requires ValidEvent(ev)
  {
    var log := Step(r, cfg, ev).log;
    forall i :: 0 < i && |r.log| <= i < |log| ==> Spaced(log, cfg, i)
  }

  /** Whatever comes next continues what was handed over, exactly when the listener has not started to generate before
    it ever received a timestamp: the first one received after that is used unchecked. */
  lemma StepExact(r: Run, cfg: Config)
    requires Fits(cfg) && Sound(r, cfg) && cfg.nominal > 0
    ensures (forall ev | ValidEvent(ev) :: Continues(r, cfg, ev)) <==> !Unprimed(r)
  {
    if Unprimed(r) {
      UncheckedBreaks(r, cfg);
    } else {
      forall ev | ValidEvent(ev) ensures Continues(r, cfg, ev) {
        var log := Step(r, cfg, ev).log;
        forall i | 0 < i && |r.log| <= i < |log| ensures Spaced(log, cfg, i) { NewGaps(r, cfg, ev, i); }
      }
    }
  }

  /** A timestamp equal to the last one generated is handed over again. */
  lemma UncheckedBreaks(r: Run, cfg: Config)
    requires Fits(cfg) && Sound(r, cfg) && cfg.nominal > 0 && Unprimed(r)
    ensures !Continues(r, cfg, Timestamps([r.crf.tsLast], 0))
  {
    var ev := Timestamps([r.crf.tsLast], 0);
    var c := Start(r.crf);
    assert Measure(c, cfg, []) == c && !Jumps(c, cfg, []);
    assert ev.ts[..0] == [];
    assert Measure(c, cfg, ev.ts) == MeasureOne(c, cfg, r.crf.tsLast);
    var s := Step(r, cfg, ev);
    assert s.log == r.log + Batch(ev.ts, false);
    assert s.log[|r.log|] == Handed(r.crf.tsLast, false) && s.log[|r.log| - 1].ts == r.crf.tsLast;
    assert !Spaced(s.log, cfg, |r.log|);
  }

  // ---------------------------------------------------------------- whole runs

  function Start0(cfg: Config): (r: Run) {
    Run(Init(cfg), [], [])
  }

  ghost predicate ValidEvents(evs: seq<Event>) {
    forall i :: 0 <= i < |evs| ==> ValidEvent(evs[i])
  }

  /** Where a run of events is after the first `k`. */
  function AfterFirst(cfg: Config, evs: seq<Event>, k: nat): (r: Run)
    requires k <= |evs| && ValidEvents(evs)
  {
    if k == 0 then Start0(cfg) else Step(AfterFirst(cfg, evs, k - 1), cfg, evs[k - 1])
  }

  /** The first of `k` events that brings timestamps from the network, or `k`. */
  function FirstBatch(evs: seq<Event>, k: nat): (f: nat)
    requires k <= |evs|
    ensures f <= k && (f < k ==> evs[f].Timestamps?)
    ensures forall j :: 0 <= j < f ==> evs[j].Timeout?
  {
    if k == 0 then 0
    else
      var f := FirstBatch(evs, k - 1);
      if f < k - 1 || evs[k - 1].Timestamps? then f else k
  }

  lemma {:induction false} RunSound(cfg: Config, evs: seq<Event>, k: nat)
    requires Fits(cfg) && ValidEvents(evs) && k <= |evs|
    ensures Sound(AfterFirst(cfg, evs, k), cfg)
    ensures AfterFirst(cfg, evs, k).crf.timestamp > 0 <==> FirstBatch(evs, k) < k
  {
    if k > 0 {
      RunSound(cfg, evs, k - 1);
      StepSound(AfterFirst(cfg, evs, k - 1), cfg, evs[k - 1]);
    }
  }

  lemma {:induction false} LogsGrow(cfg: Config, evs: seq<Event>, j: nat, k: nat)
    requires ValidEvents(evs) && j <= k <= |evs|
    ensures AfterFirst(cfg, evs, j).log <= AfterFirst(cfg, evs, k).log
  {
    hide Step;
    if j < k {
      LogsGrow(cfg, evs, j, k - 1);
      StepGrows(AfterFirst(cfg, evs, k - 1), cfg, evs[k - 1]);
    }
  }

  /** In any run, at most one timestamp is neither a period away from the one before it nor flagged: the first one ever
    received, when the listener had started to generate before. */
  lemma {:induction false} OneGap(cfg: Config, evs: seq<Event>, k: nat, i: nat)
    requires Fits(cfg) && ValidEvents(evs) && k <= |evs| && 0 < i < |AfterFirst(cfg, evs, k).log|
    ensures Spaced(AfterFirst(cfg, evs, k).log, cfg, i)
            || (var f := FirstBatch(evs, k);
                f < k && Unprimed(AfterFirst(cfg, evs, f)) && i == |AfterFirst(cfg, evs, f).log|)
  {
    hide Step;
    var before := AfterFirst(cfg, evs, k - 1);
    StepGrows(before, cfg, evs[k - 1]);
    RunSound(cfg, evs, k - 1);
    if i < |before.log| {
      OneGap(cfg, evs, k - 1, i);
    } else {
      NewGaps(before, cfg, evs[k - 1], i);
    }
  }

  /** Once a batch from the network was processed, whatever came before it, everything handed over from that batch on
    is continuous: consecutive timestamps are a period apart, within batches and across them, unless flagged. */
  lemma RunContinuous(cfg: Config, evs: seq<Event>, k: nat)
    requires Fits(cfg) && ValidEvents(evs) && k < |evs| && evs[k].Timestamps?
    ensures var from, r := |AfterFirst(cfg, evs, k).log|, AfterFirst(cfg, evs, |evs|);
            && Sound(r, cfg) && r.crf.timestamp > 0
            && from < |r.log| && Continuous(r.log[from..], cfg)
  {
    var from, r := |AfterFirst(cfg, evs, k).log|, AfterFirst(cfg, evs, |evs|);
    RunSound(cfg, evs, |evs|);
    LogsGrow(cfg, evs, k + 1, |evs|);
    var f := FirstBatch(evs, |evs|);
    LogsGrow(cfg, evs, f, k);
    var tail := r.log[from..];
    forall i | 0 < i < |tail| ensures Spaced(tail, cfg, i) {
      OneGap(cfg, evs, |evs|, from + i);
      assert tail[i] == r.log[from + i] && tail[i - 1] == r.log[from + i - 1];
    }
  }

  /** A discontinuity is flagged only after more regular timestamps in a row than the delay asks for. */
  lemma StitchEarned(r: Run, cfg: Config, ev: Event)
    requires Fits(cfg) && Sound(r, cfg) && ValidEvent(ev) && Decide(r.crf, cfg, ev).stitch
    ensures ev.Timestamps? && r.crf.state.FreeWheelingToLocked?
    ensures exists n :: n > cfg.delay && Streak(r.received + ev.ts, n, cfg)
    ensures HandedOver(Decide(r.crf, cfg, ev), ev) == ev.ts
  {
    StreakGrows(r.crf, cfg, r.received, ev.ts);
  }

  /** The listener is locked after a step exactly when it handed over what it received in it. */
  lemma LockedPassesThrough(r: Run, cfg: Config, ev: Event)
    requires Fits(cfg) && Sound(r, cfg) && ValidEvent(ev)
    ensures var d := Decide(r.crf, cfg, ev); var s := Step(r, cfg, ev);
            && (s.crf.state.Locked? <==> d.useNetwork)
            && (d.useNetwork ==> ev.Timestamps? && s.log == r.log + Batch(ev.ts, d.stitch))
  {
    if ev.Timestamps? { MeasureFacts(Start(r.crf), cfg, ev.ts); }
  }
}
