/** Counting without rollover or window. The count stops at 0 going down but
    not at the preset going up, and the input it feeds follows the count: it
    falls without a reset as soon as the count leaves the preset again. What
    becomes of the output is in `counter_output.dfy`. */
module CounterSaturation {
  import opened ConditionMachine
  import opened MachineInput
  import opened Counters

  predicate Straight(cfg: Config) {
    cfg.window <= 0 && !cfg.rollover
  }

  // ----- one call -----

  /** The count is not held at the preset: counting 5 towards 3 leaves 5. */
  lemma OvershootsPreset(b: Behavior, t0: int)
    ensures var cfg := Config(0, 3, false, false, 0);
            Run(Started(cfg, b, t0), [Delta(5)]).count == 5
  {
    var cfg := Config(0, 3, false, false, 0);
    assert [Delta(5)][..0] == [];
    assert Started(cfg, b, t0).count == 0;
  }

  /** A call leaves the count within the preset exactly when the sum is, at zero
      exactly when the sum is not positive, and the input is then the verdict on
      the new count. */
  lemma DeltaStopsIff(c: Counter, delta: int)
    requires Straight(c.cfg)
    ensures var n := ApplyDelta(c, delta);
            && (c.cfg.preset >= 0 ==> (n.count <= c.cfg.preset <==> c.count + delta <= c.cfg.preset))
            && (n.count == 0 <==> c.count + delta <= 0)
            && (n.m.rawInput <==> if c.cfg.countDown then n.count <= c.cfg.preset else n.count >= c.cfg.preset)
  {
    RawSet(c.m, true);
    RawSet(c.m, false);
  }

  // ----- any run -----

  /** A walk over `deltas` from `base` that every step pushes back to 0. */
  function Walk(base: int, deltas: seq<int>): int {
    if deltas == [] then base
    else
      var x := Walk(base, deltas[..|deltas| - 1]) + deltas[|deltas| - 1];
      if x < 0 then 0 else x
  }

  /** The sum of the deltas from the `j`th on. */
  function SumFrom(deltas: seq<int>, j: nat): int {
    if j >= |deltas| then 0 else SumFrom(deltas[..|deltas| - 1], j) + deltas[|deltas| - 1]
  }

  /** What follows the `j`th delta sums to `x`. */
  predicate SumsTo(deltas: seq<int>, j: nat, x: int) {
    1 <= j <= |deltas| && SumFrom(deltas, j) == x
  }

  /** The walk in closed form: the greatest of the sum from the start and the
      sums of what follows each delta. */
  lemma {:induction false} WalkIsGreatest(base: int, deltas: seq<int>)
    ensures Walk(base, deltas) >= base + SumFrom(deltas, 0)
    ensures forall j: nat :: 1 <= j <= |deltas| ==> Walk(base, deltas) >= SumFrom(deltas, j)
    ensures || Walk(base, deltas) == base + SumFrom(deltas, 0)
            || exists j: nat :: SumsTo(deltas, j, Walk(base, deltas))
  {
    if deltas != [] {
      var n := |deltas| - 1;
      var p, d := deltas[..n], deltas[n];
      WalkIsGreatest(base, p);
      assert SumFrom(deltas, |deltas|) == 0;
      forall j: nat | j <= n ensures SumFrom(deltas, j) == SumFrom(p, j) + d {
      }
      if Walk(base, p) + d < 0 {
        var j: nat := |deltas|;
        assert SumsTo(deltas, j, Walk(base, deltas));
      } else if Walk(base, p) != base + SumFrom(p, 0) {
        var j: nat :| SumsTo(p, j, Walk(base, p));
        assert SumsTo(deltas, j, Walk(base, deltas));
      }
    }
  }

  predicate WasReset(ops: seq<Op>) {
    ResetCount in ops
  }

  function Counted(deltas: seq<int>, op: Op): seq<int> {
    match op
    case Delta(d) => deltas + [d]
    case ResetCount => []
    case _ => deltas
  }

  /** The deltas since the last reset. */
  function Deltas(ops: seq<Op>): seq<int> {
    if ops == [] then [] else Counted(Deltas(ops[..|ops| - 1]), ops[|ops| - 1])
  }

  /** A start pushes a negative initial count back to 0, a reset does not. */
  function Base(cfg: Config, ops: seq<Op>): int {
    if WasReset(ops) then cfg.initial else Walk(cfg.initial, [0])
  }

  /** Nothing has been counted since a reset. */
  predicate JustReset(ops: seq<Op>) {
    WasReset(ops) && Deltas(ops) == []
  }

  /** What every run keeps. */
  predicate Follows(c: Counter, cfg: Config, b: Behavior, ops: seq<Op>) {
    && c.cfg == cfg && c.m.b == b && c.expiry.None?
    && c.count == Walk(Base(cfg, ops), Deltas(ops))
    && (c.m.rawInput ==> Matched(c) && !JustReset(ops))
    && (b.timeout <= 0 ==> NoTimeout(c.m) && (c.m.rawInput <==> Matched(c) && !JustReset(ops)))
  }

  lemma LastOp(ops: seq<Op>, op: Op)
    ensures Deltas(ops + [op]) == Counted(Deltas(ops), op)
    ensures WasReset(ops + [op]) <==> WasReset(ops) || op.ResetCount?
  {
    assert (ops + [op])[..|ops|] == ops;
  }

  lemma WalkOn(base: int, deltas: seq<int>, delta: int)
    ensures Walk(base, deltas + [delta]) == Walk(Walk(base, deltas), [delta])
  {
    assert (deltas + [delta])[..|deltas|] == deltas;
    assert [delta][..0] == [];
  }

  lemma {:induction false} DeltaFollows(c: Counter, delta: int)
    requires Straight(c.cfg)
    ensures var n := ApplyDelta(c, delta);
            && n.cfg == c.cfg && n.m.b == c.m.b && n.expiry == c.expiry && n.count == Walk(c.count, [delta])
            && (n.m.rawInput <==> Matched(n)) && (NoTimeout(c.m) ==> NoTimeout(n.m))
  {
    RawSet(c.m, true);
    RawSet(c.m, false);
    assert [delta][..0] == [];
    if NoTimeout(c.m) {
      RawKeepsNoTimeout(c.m, true);
      RawKeepsNoTimeout(c.m, false);
    }
  }

  lemma OtherFollows(c: Counter, op: Op)
    requires Straight(c.cfg) && c.expiry.None? && !op.Delta? && !op.ResetCount?
    ensures var n := Counters.Step(c, op);
            && n.cfg == c.cfg && n.count == c.count && n.m.b == c.m.b && n.expiry.None?
            && (n.m.rawInput ==> c.m.rawInput)
            && (NoTimeout(c.m) ==> NoTimeout(n.m) && n.m.rawInput == c.m.rawInput)
  {
    match op
    case Inhibited(v) =>
      InhibitLeavesInput(c.m, v);
      if NoTimeout(c.m) { OtherKeepsNoTimeout(c.m, v); }
    case Timer(k) =>
      TimersLeaveInput(c.m, k);
      if NoTimeout(c.m) { FireKeepsNoTimeout(c.m, k); }
    case _ =>
  }

  lemma {:induction false} StepFollows(c: Counter, cfg: Config, b: Behavior, ops: seq<Op>, op: Op)
    requires Straight(cfg) && Follows(c, cfg, b, ops)
    ensures Follows(Counters.Step(c, op), cfg, b, ops + [op])
  {
    LastOp(ops, op);
    match op
    case Delta(d) =>
      DeltaFollows(c, d);
      WalkOn(Base(cfg, ops), Deltas(ops), d);
    case ResetCount => if NoTimeout(c.m) { OtherKeepsNoTimeout(c.m, false); }
    case _ => OtherFollows(c, op);
  }

  lemma {:induction false} RunFollows(cfg: Config, b: Behavior, t0: int, ops: seq<Op>)
    requires Straight(cfg)
    ensures Follows(Run(Started(cfg, b, t0), ops), cfg, b, ops)
  {
    if ops == [] {
      DeltaFollows(Counters.New(cfg, b, t0).(m := Boot(b, t0)), 0);
    } else {
      var p := ops[..|ops| - 1];
      RunFollows(cfg, b, t0, p);
      StepFollows(Run(Started(cfg, b, t0), p), cfg, b, p, ops[|ops| - 1]);
      assert ops == p + [ops[|ops| - 1]];
    }
  }

  /** In every run, whatever timers, resets and inhibitions it holds, the count
      is the walk over the deltas since the last reset. It is negative exactly
      when a reset has restored a negative initial count and nothing has been
      counted since. */
  lemma {:induction false} CountIsWalk(cfg: Config, b: Behavior, t0: int, ops: seq<Op>)
    requires Straight(cfg)
    ensures var c := Run(Started(cfg, b, t0), ops);
            && c.count == Walk(Base(cfg, ops), Deltas(ops))
            && (c.count < 0 <==> cfg.initial < 0 && JustReset(ops))
  {
    RunFollows(cfg, b, t0, ops);
    assert [0][..0] == [];
  }

  /** The input is asserted only while the count satisfies the preset and
      something was counted since the last reset; without a timeout, exactly
      then. So short of a reset or a timeout it falls exactly when the count
      leaves the preset. */
  lemma {:induction false} InputFollowsCount(cfg: Config, b: Behavior, t0: int, ops: seq<Op>)
    requires Straight(cfg)
    ensures var c := Run(Started(cfg, b, t0), ops);
            && (c.m.rawInput ==> Matched(c) && !JustReset(ops))
            && (b.timeout <= 0 ==> (c.m.rawInput <==> Matched(c) && !JustReset(ops)))
  {
    RunFollows(cfg, b, t0, ops);
  }

  predicate OnlyUp(ops: seq<Op>) {
    forall i :: 0 <= i < |ops| ==> !ops[i].ResetCount? && (ops[i].Delta? ==> ops[i].delta >= 0)
  }

  /** An up-counter that has reached its preset keeps its input asserted through
      any further counting up, with no timeout configured, until it is reset. */
  lemma {:induction false} InputStaysUpUntilReset(cfg: Config, b: Behavior, t0: int, ops: seq<Op>, more: seq<Op>)
    requires Straight(cfg) && !cfg.countDown && b.timeout <= 0 && OnlyUp(more)
    requires Run(Started(cfg, b, t0), ops).m.rawInput
    ensures Run(Run(Started(cfg, b, t0), ops), more).m.rawInput
  {
    RunFollows(cfg, b, t0, ops);
    UpRun(Run(Started(cfg, b, t0), ops), more);
  }

  /** An up-counter at or past its preset, its input asserted. */
  predicate Up(c: Counter) {
    && Straight(c.cfg) && !c.cfg.countDown && c.expiry.None?
    && NoTimeout(c.m) && c.m.rawInput && Matched(c)
  }

  lemma {:induction false} UpRun(c: Counter, more: seq<Op>)
    requires Up(c) && OnlyUp(more)
    ensures Up(Run(c, more))
  {
    if more != [] {
      var n := |more| - 1;
      UpRun(c, more[..n]);
      UpStep(Run(c, more[..n]), more[n]);
    }
  }

  lemma {:induction false} UpStep(c: Counter, op: Op)
    requires Up(c) && !op.ResetCount? && (op.Delta? ==> op.delta >= 0)
    ensures Up(Counters.Step(c, op))
  {
    match op
    case Delta(d) =>
      DeltaFollows(c, d);
      assert [d][..0] == [];
    case _ => OtherFollows(c, op);
  }

  // ----- rollover, in either direction -----

  /** The comparison with the preset, written out. */
  predicate Reaches(cfg: Config, count: int) {
    if cfg.countDown then count <= cfg.preset else count >= cfg.preset
  }

  /** A rolling call that reaches the preset leaves the initial count and has told
      the machine to rise and, unless the initial count reaches the preset too,
      to fall again; one that does not leaves the clamped sum and the input low. */
  lemma RolloverCall(c: Counter, delta: int)
    requires c.cfg.window <= 0 && c.cfg.rollover
    ensures var sum := if c.count + delta < 0 then 0 else c.count + delta;
            var n := ApplyDelta(c, delta);
            && n.cfg == c.cfg && n.events == c.events && n.expiry == c.expiry
            && (if !Reaches(c.cfg, sum) then n.count == sum && n.m == SetRawInput(c.m, false)
                else if Reaches(c.cfg, c.cfg.initial) then n.count == c.cfg.initial && n.m == SetRawInput(c.m, true)
                else n.count == c.cfg.initial && n.m == SetRawInput(SetRawInput(c.m, true), false))
  {
  }

  /** The count of a rolling counter: back to the initial one whenever the clamped
      sum reaches the preset. */
  function RollingCount(cfg: Config, ops: seq<Op>): int {
    if ops == [] then Rolled(cfg, cfg.initial)
    else
      var before := RollingCount(cfg, ops[..|ops| - 1]);
      match ops[|ops| - 1]
      case Delta(delta) => Rolled(cfg, before + delta)
      case ResetCount => cfg.initial
      case _ => before
  }

  function Rolled(cfg: Config, sum: int): int {
    var count := if sum < 0 then 0 else sum;
    if Reaches(cfg, count) then cfg.initial else count
  }

  /** In every run of a rolling counter, in either direction, that is the count,
      and the input is asserted only while it satisfies the preset; without a
      timeout, exactly then, unless nothing was counted since a reset. */
  lemma {:induction false} RollingRun(cfg: Config, b: Behavior, t0: int, ops: seq<Op>)
    requires cfg.window <= 0 && cfg.rollover
    ensures var c := Run(Started(cfg, b, t0), ops);
            && Rolling(c, cfg, b, ops)
            && (b.timeout <= 0 ==> (c.m.rawInput <==> Reaches(cfg, c.count) && !JustReset(ops)))
  {
    if ops == [] {
      var c := Counters.New(cfg, b, t0).(m := Boot(b, t0));
      RolloverTells(c, 0);
    } else {
      var p, op := ops[..|ops| - 1], ops[|ops| - 1];
      RollingRun(cfg, b, t0, p);
      RollingStep(Run(Started(cfg, b, t0), p), cfg, b, p, op);
      assert ops == p + [op];
    }
  }

  predicate Rolling(c: Counter, cfg: Config, b: Behavior, ops: seq<Op>) {
    && c.cfg == cfg && c.m.b == b && c.expiry.None? && c.count == RollingCount(cfg, ops)
    && (c.m.rawInput ==> Reaches(cfg, c.count) && !JustReset(ops))
    && (b.timeout <= 0 ==> NoTimeout(c.m) && (c.m.rawInput <==> Reaches(cfg, c.count) && !JustReset(ops)))
  }

  lemma {:induction false} RollingStep(c: Counter, cfg: Config, b: Behavior, ops: seq<Op>, op: Op)
    requires cfg.window <= 0 && cfg.rollover && Rolling(c, cfg, b, ops)
    ensures Rolling(Counters.Step(c, op), cfg, b, ops + [op])
  {
    LastOp(ops, op);
    assert (ops + [op])[..|ops|] == ops;
    match op
    case Delta(delta) => RolloverTells(c, delta);
    case ResetCount => if NoTimeout(c.m) { OtherKeepsNoTimeout(c.m, false); }
    case _ => RollingOther(c, op);
  }

  lemma RolloverTells(c: Counter, delta: int)
    requires c.cfg.window <= 0 && c.cfg.rollover
    ensures var n := ApplyDelta(c, delta);
            && n.cfg == c.cfg && n.m.b == c.m.b && n.expiry == c.expiry && n.count == Rolled(c.cfg, c.count + delta)
            && (n.m.rawInput <==> Reaches(c.cfg, n.count)) && (NoTimeout(c.m) ==> NoTimeout(n.m))
  {
    RolloverCall(c, delta);
    RawSet(c.m, true);
    RawSet(c.m, false);
    RawSet(SetRawInput(c.m, true), false);
    if NoTimeout(c.m) {
      RawKeepsNoTimeout(c.m, true);
      RawKeepsNoTimeout(c.m, false);
      RawKeepsNoTimeout(SetRawInput(c.m, true), false);
    }
  }

  lemma RollingOther(c: Counter, op: Op)
    requires c.expiry.None? && c.cfg.window <= 0 && !op.Delta? && !op.ResetCount?
    ensures var n := Counters.Step(c, op);
            && n.cfg == c.cfg && n.m.b == c.m.b && n.count == c.count && n.expiry.None?
            && (n.m.rawInput ==> c.m.rawInput)
            && (NoTimeout(c.m) ==> NoTimeout(n.m) && n.m.rawInput == c.m.rawInput)
  {
    match op
    case Inhibited(v) =>
      InhibitLeavesInput(c.m, v);
      if NoTimeout(c.m) { OtherKeepsNoTimeout(c.m, v); }
    case Timer(k) =>
      TimersLeaveInput(c.m, k);
      if NoTimeout(c.m) { FireKeepsNoTimeout(c.m, k); }
    case _ =>
  }

  // ----- resets -----

  /** A reset restores the initial count, forgets the window and its timer, and
      leaves the machine down, unlatched and with its input withdrawn. */
  lemma ResetIsComplete(c: Counter)
    ensures var n := Counters.Step(c, ResetCount);
            && n.count == c.cfg.initial && n.events == [] && n.expiry.None? && n.cfg == c.cfg
            && !Raised(n.m) && n.m.state.Inactive? && !n.m.rawInput && !n.m.latched && n.m.now == c.m.now
            && !n.m.pendingTimer.Live? && !n.m.timeoutTimer.Live? && n.m.retAccumulated == 0
            && n.m.cooldownUntil == c.m.cooldownUntil && n.m.inhibited == c.m.inhibited
  {
  }
}
