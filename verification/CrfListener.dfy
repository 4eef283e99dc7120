/**
 The CRF listener itself (avtp/crf.c), which works on an array of timestamps in place: received ones are measured,
 and overwritten when generated ones are handed over instead. It does what module Crf says.
 */
module CrfListener {
  import opened WrapArithmetic
  import opened Crf

  datatype Kind = TimeoutEvent | TimestampsEvent

  class Listener {
    const cfg: Config
    var state: State
    var tsLast: nat
    var tsLastSet: bool
    var receivedTsLast: nat
    var period: nat
    var timestamp: nat
    var timer: bool
    var domainFreeWheeling: bool

    ghost var log: seq<Handed>
    ghost var received: seq<nat>
    /** Everything handed over from here on is continuous. */
    ghost var steadyFrom: nat

    ghost function Now(): (c: Crf)
      reads this
    {
      Crf(state, tsLast, tsLastSet, receivedTsLast, period, timestamp, domainFreeWheeling)
    }

    ghost function View(): (r: Run)
      reads this
    {
      Run(Now(), log, received)
    }

    ghost predicate Valid()
      reads this
    {
      && Fits(cfg) && Sound(View(), cfg)
      && steadyFrom <= |log| && Continuous(log[steadyFrom..], cfg)
      && (timestamp == 0 ==> steadyFrom == 0)
    }

    constructor (cfg: Config)
      requires Fits(cfg)
      ensures Valid() && this.cfg == cfg && View() == Start0(cfg)
    {
      this.cfg := cfg;
      state, tsLast, tsLastSet, receivedTsLast := Locked, 0, false, 0;
      period, timestamp, timer, domainFreeWheeling := cfg.nominal, 0, false, false;
      log, received, steadyFrom := [], [], 0;
    }

    /** Measures the received timestamps. The result is negative after a jump, positive after enough regular ones. */
    method MeasurePeriod(ts: array<nat>, n: nat) returns (rc: int)
      requires n <= ts.Length && Fits(cfg) && InRange(cfg, period) && timestamp <= TIMESTAMP_COUNT_MAX
      modifies `receivedTsLast, `period, `timestamp
      ensures Now() == Measure(old(Now()), cfg, ts[..n])
      ensures rc < 0 <==> Jumps(old(Now()), cfg, ts[..n])
      ensures rc > 0 <==> rc >= 0 && timestamp > cfg.delay
    {
      rc := 0;
      for i := 0 to n
        invariant Now() == Measure(old(Now()), cfg, ts[..i])
        invariant rc == if Jumps(old(Now()), cfg, ts[..i]) then -1 else 0
      {
        assert ts[..i + 1][..i] == ts[..i];
        MeasureFacts(old(Now()), cfg, ts[..i]);
        var jump := MeasureTimestamp(ts[i]);
        if jump { rc := -1; }
      }
      if rc == 0 && timestamp > cfg.delay { rc := 1; }
    }

    method MeasureTimestamp(t: nat) returns (jump: bool)
      requires Fits(cfg) && InRange(cfg, period)
      modifies `receivedTsLast, `period, `timestamp
      ensures Now() == MeasureOne(old(Now()), cfg, t)
      ensures jump <==> old(timestamp) > 0 && !Regular(cfg, Gap(old(receivedTsLast), t))
    {
      jump := false;
      if timestamp > 0 {
        var measured := (t - receivedTsLast) % U32;
        if AbsDist(measured, cfg.nominal) > PeriodErr(cfg) {
          jump, timestamp := true, 0;
        } else if timestamp == 1 {
          period := measured;
        } else {
          RegularIsInRange(cfg, measured);
          NoWrap(measured);
          period := ((period * 3 % U32 + 2) % U32 / 4 + (measured + 2) % U32 / 4) % U32;
        }
      }
      if timestamp < TIMESTAMP_COUNT_MAX {
        timestamp := timestamp + 1;
      }
      receivedTsLast := t;
    }

    /** The arithmetic of the smoothing stays within 32 bits. */
    lemma NoWrap(measured: nat)
      requires Fits(cfg) && InRange(cfg, period) && InRange(cfg, measured)
      ensures ((period * 3 % U32 + 2) % U32 / 4 + (measured + 2) % U32 / 4) % U32 == Smoothed(period, measured)
    {
      DivIs(period * 3, U32, 0);
      DivIs(period * 3 + 2, U32, 0);
      DivIs(measured + 2, U32, 0);
      DivIs(Smoothed(period, measured), U32, 0);
    }

    method GenerateTimestamps(ts: array<nat>, n: nat, gptp: nat)
      requires n <= ts.Length
      modifies ts
      ensures ts[..n] == Generated(if tsLastSet then tsLast else (gptp + period) % U32, period, n)
    {
      var start := if tsLastSet then tsLast else (gptp + period) % U32;
      var last := start;
      for i := 0 to n
        invariant ts[..i] == Generated(start, period, i)
        invariant last == if i == 0 then start else Generated(start, period, i)[i - 1]
      {
        last := (last + period) % U32;
        ts[i] := last;
        assert ts[..i + 1] == ts[..i] + [last];
      }
    }

    method SetState(s: State)
      modifies `state, `domainFreeWheeling
      ensures Now() == Enter(old(Now()), s)
    {
      state := s;
      if s.FreeWheeling? {
        domainFreeWheeling := true;
      } else if s.Locked? {
        domainFreeWheeling := false;
      }
    }

    ghost function EventOf(kind: Kind, ts: array<nat>, n: nat, gptp: nat): (ev: Event)
      requires n <= ts.Length
      reads ts
    {
      match kind case TimeoutEvent => Timeout(n, gptp) case TimestampsEvent => Timestamps(ts[..n], gptp)
    }

    /** The decision taken in each state: whether to generate, and whether the batch is flagged. */
    method Transition(kind: Kind, ts: array<nat>, n: nat, ghost gptp: nat) returns (generate: bool, doStitch: bool)
      requires Fits(cfg) && Sound(View(), cfg) && n <= ts.Length
      modifies `state, `domainFreeWheeling, `receivedTsLast, `period, `timestamp
      ensures var d := Decide(old(Now()), cfg, old(EventOf(kind, ts, n, gptp)));
              Now() == d.crf && generate == !d.useNetwork && doStitch == d.stitch
    {
      generate, doStitch := false, false;
      if kind.TimeoutEvent? {
        SetState(if state.Locked? then LockedToFreeWheeling else FreeWheeling);
        generate := true;
        return;
      }
      match state {
        case Locked =>
          var rc := MeasurePeriod(ts, n);
          if rc < 0 {
            SetState(FreeWheeling);
            generate := true;
          }
        case FreeWheeling =>
          receivedTsLast, timestamp := tsLast, 1;
          assert Now() == Start(old(Now()));
          var rc := MeasurePeriod(ts, n);
          SetState(if rc < 0 then FreeWheelingToLocked else Locked);
          generate := rc < 0;
        case FreeWheelingToLocked =>
          var rc := MeasurePeriod(ts, n);
          if rc < 0 {
            SetState(FreeWheeling);
            generate := true;
          } else if rc > 0 {
            SetState(Locked);
            doStitch := true;
          } else {
            generate := true;
          }
        case LockedToFreeWheeling =>
          receivedTsLast := tsLast;
          assert Now() == Start(old(Now()));
          var rc := MeasurePeriod(ts, n);
          SetState(if rc < 0 then FreeWheeling else Locked);
          generate := rc < 0;
      }
    }

    /** One call of the state handler is one step of the specification; `ts` holds what was handed over, and the
      timer that generates the next batch runs. */
    method StateHandler(kind: Kind, ts: array<nat>, n: nat, gptp: nat) returns (doStitch: bool)
      requires Valid() && n <= ts.Length && ValidEvent(EventOf(kind, ts, n, gptp))
      modifies this, ts
      ensures Valid() && View() == Step(old(View()), cfg, old(EventOf(kind, ts, n, gptp)))
      ensures log == old(log) + Batch(ts[..n], doStitch) && timer
      ensures steadyFrom == if Unprimed(old(View())) && kind.TimestampsEvent? then |old(log)| else old(steadyFrom)
    {
      ghost var ev := EventOf(kind, ts, n, gptp);
      StepSound(View(), cfg, ev);
      StaysContinuous(View(), cfg, ev, steadyFrom);
      hide Step, Sound;
      if Unprimed(View()) && kind.TimestampsEvent? { steadyFrom := |log|; }
      doStitch := Handle(kind, ts, n, gptp);
    }

    method Handle(kind: Kind, ts: array<nat>, n: nat, gptp: nat) returns (doStitch: bool)
      requires Fits(cfg) && Sound(View(), cfg) && n <= ts.Length && ValidEvent(EventOf(kind, ts, n, gptp))
      modifies this, ts
      ensures View() == Step(old(View()), cfg, old(EventOf(kind, ts, n, gptp)))
      ensures log == old(log) + Batch(ts[..n], doStitch) && timer && steadyFrom == old(steadyFrom)
    {
      ghost var ev := EventOf(kind, ts, n, gptp);
      var generate;
      generate, doStitch := Transition(kind, ts, n, gptp);
      ghost var d := Decide(old(Now()), cfg, ev);
      DecisionUses(old(Now()), ev);
      if kind.TimestampsEvent? { timer := false; }
      if generate { GenerateTimestamps(ts, n, gptp); }
      assert ts[..n] == HandedOver(d, ev);
      HandOver(ts, n, doStitch, if ev.Timestamps? then ev.ts else []);
      assert old(received) + [] == old(received);
    }

    /** The clock producer gets the batch, and the timer is set for the next one. */
    method HandOver(ts: array<nat>, n: nat, doStitch: bool, ghost news: seq<nat>)
      requires 0 < n <= ts.Length
      modifies `tsLast, `tsLastSet, `timer, `log, `received
      ensures View() == Run(old(Now()).(tsLast := ts[n - 1], tsLastSet := true),
                      old(log) + Batch(ts[..n], doStitch), old(received) + news)
      ensures timer
    {
      tsLast, tsLastSet := ts[n - 1], true;
      timer := true;
      log, received := log + Batch(ts[..n], doStitch), received + news;
    }

    lemma DecisionUses(c: Crf, ev: Event)
      ensures Decide(c, cfg, ev).useNetwork ==> ev.Timestamps?
    {
    }
  }
}
