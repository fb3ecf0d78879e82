/** The threshold condition: hysteresis over numeric samples, then a debounced
    edge to the condition machine. Samples are real numbers. */
module Thresholds {
  import opened Options
  import opened ConditionMachine
  import opened MachineInput

  datatype Band = Band(high: bool, on: real, off: real)

  /** What the configuration reader lets through. */
  predicate Ordered(t: Band) {
    if t.high then t.on > t.off else t.off > t.on
  }

  function Width(t: Band): real {
    if t.high then t.on - t.off else t.off - t.on
  }

  function Derive(t: Band, derived: bool, value: real): bool {
    if t.high then
      if derived then !(value < t.off) else value > t.on
    else
      if derived then !(value > t.off) else value < t.on
  }

  function DeriveAll(t: Band, start: bool, samples: seq<real>): bool {
    if samples == [] then start
    else Derive(t, DeriveAll(t, start, samples[..|samples| - 1]), samples[|samples| - 1])
  }

  // ----- decided by the last unambiguous sample -----

  /** The sample lies beyond the activation threshold. */
  predicate Activates(t: Band, v: real) {
    if t.high then v > t.on else v < t.on
  }

  /** The sample lies beyond the deactivation threshold. */
  predicate Deactivates(t: Band, v: real) {
    if t.high then v < t.off else v > t.off
  }

  predicate InDeadband(t: Band, v: real) {
    !Activates(t, v) && !Deactivates(t, v)
  }

  /** Sample `k` is the last one outside the deadband. */
  predicate LastOutside(t: Band, samples: seq<real>, k: nat) {
    && k < |samples| && !InDeadband(t, samples[k])
    && forall i :: k < i < |samples| ==> InDeadband(t, samples[i])
  }

  /** The derived value is decided by the last sample outside the deadband, and
      is the starting one if there is none. */
  lemma {:induction false} LastOutsideDecides(t: Band, start: bool, samples: seq<real>)
    requires Ordered(t)
    ensures forall k: nat :: LastOutside(t, samples, k) ==> DeriveAll(t, start, samples) == Activates(t, samples[k])
    ensures (forall i :: 0 <= i < |samples| ==> InDeadband(t, samples[i])) ==> DeriveAll(t, start, samples) == start
  {
    if samples != [] {
      var p := samples[..|samples| - 1];
      var v := samples[|samples| - 1];
      LastOutsideDecides(t, start, p);
      forall k: nat | LastOutside(t, samples, k) ensures DeriveAll(t, start, samples) == Activates(t, samples[k]) {
        if k < |p| {
          assert LastOutside(t, p, k);
          assert InDeadband(t, v);
        }
      }
    }
  }

  // ----- flips cost variation -----

  function Flips(t: Band, samples: seq<real>): nat {
    if samples == [] then 0
    else
      var p := samples[..|samples| - 1];
      Flips(t, p) + (if DeriveAll(t, false, p) != DeriveAll(t, false, samples) then 1 else 0)
  }

  function Distance(x: real, y: real): real {
    if x < y then y - x else x - y
  }

  /** The total variation of the samples. */
  function Variation(samples: seq<real>): real {
    if |samples| <= 1 then 0.0
    else Variation(samples[..|samples| - 1]) + Distance(samples[|samples| - 2], samples[|samples| - 1])
  }

  /** How far the last sample still is on the old side of the threshold that
      caused the last flip: distance towards the next flip already covered. */
  function Progress(t: Band, derived: bool, v: real): real {
    var e := if t.high then (if derived then t.on - v else v - t.off) else (if derived then v - t.on else t.off - v);
    if e > 0.0 then e else 0.0
  }

  /** What `n` crossings of the band cost. */
  function Cost(t: Band, n: nat): real {
    if n == 0 then 0.0 else Cost(t, n - 1) + Width(t)
  }

  lemma {:induction false} CostIsProduct(t: Band, n: nat)
    ensures Cost(t, n) == n as real * Width(t)
  {
    if n > 0 {
      CostIsProduct(t, n - 1);
      Distributes(n, Width(t));
    }
  }

  lemma Distributes(n: nat, w: real)
    requires n > 0
    ensures (n - 1) as real * w + w == n as real * w
  {
    assert n as real == (n - 1) as real + 1.0;
  }

  /** `variation` pays for `flips` flips and the progress since. */
  predicate Paid(t: Band, derived: bool, last: real, flips: nat, variation: real) {
    && variation >= 0.0
    && (flips >= 1 ==> variation >= Cost(t, flips - 1) + Progress(t, derived, last))
    && (flips == 0 ==> !derived)
  }

  lemma FirstSamplePaid(t: Band, v: real)
    requires Ordered(t)
    ensures Paid(t, Derive(t, false, v), v, if Derive(t, false, v) then 1 else 0, 0.0)
  {
  }

  lemma {:induction false} NextSamplePaid(t: Band, derived: bool, from: real, to: real, flips: nat, variation: real)
    requires Ordered(t) && Paid(t, derived, from, flips, variation)
    ensures var next := Derive(t, derived, to);
            Paid(t, next, to, if next != derived then flips + 1 else flips, variation + Distance(from, to))
  {
    assert flips >= 1 ==> Cost(t, flips) == Cost(t, flips - 1) + Width(t);
  }

  lemma {:induction false} SamplesPaid(t: Band, samples: seq<real>)
    requires Ordered(t) && samples != []
    ensures Paid(t, DeriveAll(t, false, samples), samples[|samples| - 1], Flips(t, samples), Variation(samples))
  {
    var p := samples[..|samples| - 1];
    if p == [] {
      FirstSamplePaid(t, samples[0]);
    } else {
      SamplesPaid(t, p);
      NextSamplePaid(t, DeriveAll(t, false, p), p[|p| - 1], samples[|p|], Flips(t, p), Variation(p));
    }
  }

  /** `k` flips from a false start need the samples to vary by at least `k - 1`
      band widths in all. */
  lemma {:induction false} FlipsNeedVariation(t: Band, samples: seq<real>, k: nat)
    requires Ordered(t) && k == Flips(t, samples) && k >= 1
    ensures Variation(samples) >= (k - 1) as real * Width(t)
  {
    FlipsAreCovered(t, samples, k);
    CoversProduct(t, k - 1, Variation(samples));
  }

  lemma {:induction false} FlipsAreCovered(t: Band, samples: seq<real>, k: nat)
    requires Ordered(t) && k == Flips(t, samples) && k >= 1
    ensures Variation(samples) >= Cost(t, k - 1)
  {
    SamplesPaid(t, samples);
  }

  lemma {:induction false} CoversProduct(t: Band, n: nat, variation: real)
    requires variation >= Cost(t, n)
    ensures variation >= n as real * Width(t)
  {
    CostIsProduct(t, n);
  }

  // ----- the low form is the high form upside down -----

  function Negated(samples: seq<real>): (r: seq<real>)
    ensures |r| == |samples| && forall i :: 0 <= i < |samples| ==> r[i] == -samples[i]
  {
    seq(|samples|, i requires 0 <= i < |samples| => -samples[i])
  }

  function Mirror(t: Band): Band {
    Band(!t.high, -t.on, -t.off)
  }

  lemma {:induction false} LowMirrorsHigh(t: Band, start: bool, samples: seq<real>)
    ensures Ordered(Mirror(t)) == Ordered(t) && Width(Mirror(t)) == Width(t)
    ensures DeriveAll(Mirror(t), start, Negated(samples)) == DeriveAll(t, start, samples)
  {
    if samples != [] {
      var p := samples[..|samples| - 1];
      LowMirrorsHigh(t, start, p);
      assert Negated(samples)[..|p|] == Negated(p);
    }
  }

  // ----- the condition -----

  datatype Threshold = Threshold(
    band: Band,
    interval: int,
    m: Machine,
    haveValue: bool,
    derived: bool,
    stableInput: bool,
    deb: Option<int>)

  function SubmitDerived(c: Threshold, value: bool): Threshold {
    if c.interval <= 0 then
      if value == c.stableInput then c else c.(stableInput := value, m := SetRawInput(c.m, value))
    else if value == c.stableInput then c.(deb := None)
    else c.(deb := Some(c.m.now + c.interval))
  }

  function SubmitValue(c: Threshold, value: real): Threshold {
    var derived := Derive(c.band, c.derived, value);
    var h := c.(haveValue := true);
    if derived == c.derived then h else SubmitDerived(h.(derived := derived), derived)
  }

  function OnDebounceFire(c: Threshold): Threshold {
    var f := c.(deb := None);
    if f.derived == f.stableInput then f
    else f.(stableInput := f.derived, m := SetRawInput(f.m, f.derived))
  }

  /** `input` is the declared input right now, if it evaluates to a number. */
  function ClearAll(c: Threshold, input: Option<real>): Threshold {
    var r := c.(deb := None, haveValue := false, derived := false, stableInput := false, m := Clear(c.m));
    if input.None? then r
    else
      var derived := Derive(r.band, false, input.value);
      var s := r.(haveValue := true, derived := derived, stableInput := derived);
      if derived then s.(m := SetRawInput(s.m, true)) else s
  }

  function Start(c: Threshold): Threshold {
    var s := c.(m := Bootstrap(c.m));
    if c.m.b.startActive then s.(derived := true, stableInput := true) else s
  }

  function Started(band: Band, interval: int, b: Behavior, t0: int): Threshold {
    Start(Threshold(band, interval, New(b, t0), false, false, false, None))
  }

  datatype Op =
    | Sample(value: real)
    | ClearInput(input: Option<real>)
    | DebounceFire
    | Tick(d: nat)
    | Inhibited(inhibit: bool)
    | Timer(k: Kind)

  predicate DebounceDue(c: Threshold) {
    c.deb.Some? && c.deb.value <= c.m.now
  }

  function Step(c: Threshold, op: Op): Threshold {
    match op
    case Sample(v) => SubmitValue(c, v)
    case ClearInput(v) => ClearAll(c, v)
    case DebounceFire => if DebounceDue(c) then OnDebounceFire(c) else c
    case Tick(n) => c.(m := ConditionMachine.Step(c.m, Advance(n)))
    case Inhibited(v) => c.(m := SetInhibited(c.m, v))
    case Timer(k) => c.(m := FireTimer(c.m, k))
  }

  function Run(c: Threshold, ops: seq<Op>): Threshold {
    if ops == [] then c else Step(Run(c, ops[..|ops| - 1]), ops[|ops| - 1])
  }

  /** The samples since the last clear, its own re-sampling included. */
  function Samples(ops: seq<Op>): seq<real> {
    if ops == [] then []
    else
      match ops[|ops| - 1]
      case Sample(v) => Samples(ops[..|ops| - 1]) + [v]
      case ClearInput(v) => if v.Some? then [v.value] else []
      case _ => Samples(ops[..|ops| - 1])
  }

  predicate Cleared(ops: seq<Op>) {
    exists i :: 0 <= i < |ops| && ops[i].ClearInput?
  }

  /** When the derived value last changed. */
  function ChangedAt(c: Threshold, ops: seq<Op>): int {
    if ops == [] then c.m.now
    else
      var p := ops[..|ops| - 1];
      if Run(c, ops).derived != Run(c, p).derived then Run(c, ops).m.now else ChangedAt(c, p)
  }

  predicate Inv(c: Threshold, since: int) {
    && (c.m.rawInput ==> c.stableInput)
    && (if c.interval <= 0 then c.deb.None? && c.derived == c.stableInput
        else
          && (c.deb.Some? <==> c.derived != c.stableInput)
          && (c.deb.Some? ==> c.deb.value == since + c.interval))
  }

  lemma SampleKeeps(c: Threshold, since: int, v: real)
    requires Inv(c, since)
    ensures var n := SubmitValue(c, v);
            && n.derived == Derive(c.band, c.derived, v)
            && Inv(n, if n.derived != c.derived then c.m.now else since)
            && n.m.now == c.m.now && n.interval == c.interval && n.band == c.band
  {
    RawSet(c.m, true);
    RawSet(c.m, false);
  }

  lemma StepKeeps(c: Threshold, since: int, op: Op)
    requires Inv(c, since)
    ensures var n := Step(c, op);
            && Inv(n, if n.derived != c.derived then n.m.now else since)
            && n.interval == c.interval && n.band == c.band
  {
    match op
    case Sample(v) => SampleKeeps(c, since, v);
    case ClearInput(_) => RawSet(Clear(c.m), true);
    case DebounceFire => RawSet(c.m, c.derived);
    case Tick(_) =>
    case Inhibited(v) => InhibitLeavesInput(c.m, v);
    case Timer(k) => TimersLeaveInput(c.m, k);
  }

  lemma {:induction false} RunKeeps(band: Band, interval: int, b: Behavior, t0: int, ops: seq<Op>)
    ensures var s := Started(band, interval, b, t0);
            Inv(Run(s, ops), ChangedAt(s, ops)) && Run(s, ops).interval == interval && Run(s, ops).band == band
  {
    if ops != [] {
      var s := Started(band, interval, b, t0);
      RunKeeps(band, interval, b, t0, ops[..|ops| - 1]);
      StepKeeps(Run(s, ops[..|ops| - 1]), ChangedAt(s, ops[..|ops| - 1]), ops[|ops| - 1]);
    }
  }

  /** In every run the condition derives exactly what hysteresis over the
      samples since the last clear does, from false after a clear and from
      `start_active` before one. */
  lemma {:induction false} RunDerives(band: Band, interval: int, b: Behavior, t0: int, ops: seq<Op>)
    ensures Run(Started(band, interval, b, t0), ops).derived ==
            DeriveAll(band, b.startActive && !Cleared(ops), Samples(ops))
  {
    if ops != [] {
      var p := ops[..|ops| - 1];
      RunDerives(band, interval, b, t0, p);
      RunKeeps(band, interval, b, t0, p);
      assert ops[|ops| - 1].ClearInput? ==> Cleared(ops);
      assert !ops[|ops| - 1].ClearInput? ==> (Cleared(ops) <==> Cleared(p));
      match ops[|ops| - 1]
      case Sample(v) =>
        assert (Samples(p) + [v])[..|Samples(p)|] == Samples(p);
      case ClearInput(v) =>
        if v.Some? { assert [v.value][..0] == []; }
      case _ =>
    }
  }

  /** The debounce timer is armed exactly while the derived value differs from
      the committed one, and once it may run the derived value is committed
      exactly when it has stood for the whole interval. */
  lemma {:induction false} CommitsStableValues(band: Band, interval: int, b: Behavior, t0: int, ops: seq<Op>)
    requires interval > 0
    ensures var s := Started(band, interval, b, t0);
            var c := Run(s, ops);
            var n := Step(c, DebounceFire);
            && (c.deb.Some? <==> c.derived != c.stableInput)
            && (n.stableInput != c.stableInput <==>
                  c.derived != c.stableInput && ChangedAt(s, ops) + interval <= c.m.now)
            && (n.stableInput != c.stableInput ==> n.stableInput == c.derived == n.m.rawInput)
  {
    var s := Started(band, interval, b, t0);
    RunKeeps(band, interval, b, t0, ops);
    RawSet(Run(s, ops).m, Run(s, ops).derived);
  }

  // ----- the machine is told -----

  lemma StepTells(c: Threshold, op: Op)
    requires NoTimeout(c.m) && c.m.rawInput == c.stableInput
    ensures NoTimeout(Step(c, op).m) && Step(c, op).m.rawInput == Step(c, op).stableInput
  {
    match op
    case Sample(v) => RawKeepsNoTimeout(c.m, Derive(c.band, c.derived, v));
    case ClearInput(_) =>
      OtherKeepsNoTimeout(c.m, false);
      RawKeepsNoTimeout(Clear(c.m), true);
    case DebounceFire => RawKeepsNoTimeout(c.m, c.derived);
    case Tick(_) =>
    case Inhibited(v) => OtherKeepsNoTimeout(c.m, v);
    case Timer(k) => FireKeepsNoTimeout(c.m, k);
  }

  /** Without a timeout the machine always holds the committed value; without a
      debounce either, the hysteresis of the samples since the last clear. */
  lemma {:induction false} MachineIsTold(band: Band, interval: int, b: Behavior, t0: int, ops: seq<Op>)
    requires b.timeout <= 0
    ensures var c := Run(Started(band, interval, b, t0), ops);
            && NoTimeout(c.m) && c.m.rawInput == c.stableInput
            && (interval <= 0 ==> c.m.rawInput == DeriveAll(band, b.startActive && !Cleared(ops), Samples(ops)))
  {
    if ops != [] {
      MachineIsTold(band, interval, b, t0, ops[..|ops| - 1]);
      StepTells(Run(Started(band, interval, b, t0), ops[..|ops| - 1]), ops[|ops| - 1]);
    }
    RunKeeps(band, interval, b, t0, ops);
    RunDerives(band, interval, b, t0, ops);
  }

  /** Even after a timeout has withdrawn the input, a sample that flips the
      derived value reaches the machine at once if there is no debounce. */
  lemma {:induction false} FlipsReachMachine(band: Band, interval: int, b: Behavior, t0: int, ops: seq<Op>, v: real)
    requires interval <= 0
    ensures var c := Run(Started(band, interval, b, t0), ops);
            var n := Step(c, Sample(v));
            n.derived != c.derived ==> n.m.rawInput == n.stableInput == n.derived
  {
    RunKeeps(band, interval, b, t0, ops);
    var c := Run(Started(band, interval, b, t0), ops);
    RawSet(c.m, Derive(band, c.derived, v));
  }

  /** A clear takes the declared input afresh, debounce or not: the machine is
      left with whether the sample, if there is one, lies beyond the activation
      threshold, and nothing is pending. */
  lemma ClearResamples(c: Threshold, input: Option<real>)
    ensures var n := Step(c, ClearInput(input));
            && n.m.rawInput == n.stableInput == n.derived == (input.Some? && Activates(c.band, input.value))
            && n.deb.None? && n.haveValue == input.Some? && n.m.now == c.m.now
  {
    RawSet(Clear(c.m), true);
  }

  /** The committed value from the history: it changes when the debounce timer
      runs once the derived value has stood for the interval, and on a clear. */
  function Committed(s: Threshold, ops: seq<Op>): bool {
    if ops == [] then s.stableInput
    else
      var p, c := ops[..|ops| - 1], Run(s, ops[..|ops| - 1]);
      match ops[|ops| - 1]
      case ClearInput(input) => input.Some? && Activates(s.band, input.value)
      case DebounceFire => if ChangedAt(s, p) + s.interval <= c.m.now then c.derived else Committed(s, p)
      case _ => Committed(s, p)
  }

  lemma {:induction false} CommittedFromHistory(band: Band, interval: int, b: Behavior, t0: int, ops: seq<Op>)
    requires interval > 0
    ensures Run(Started(band, interval, b, t0), ops).stableInput == Committed(Started(band, interval, b, t0), ops)
  {
    if ops != [] {
      var s, p, op := Started(band, interval, b, t0), ops[..|ops| - 1], ops[|ops| - 1];
      CommittedFromHistory(band, interval, b, t0, p);
      RunKeeps(band, interval, b, t0, p);
      if op.ClearInput? { ClearResamples(Run(s, p), op.input); }
    }
  }
}
