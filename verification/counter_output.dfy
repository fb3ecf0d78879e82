/** When the output of a counter without rollover or window falls. A reset
    lowers it; short of one, a latch keeps it up, and without a latch it falls
    on the call that takes the count off the preset, after `deactivate_after` if
    that is set, or on a timeout. */
module CounterOutput {
  import opened ConditionMachine
  import MachineRuns
  import opened Counters
  import opened CounterSaturation

  // ----- the machine's invariant in counter runs -----

  lemma StepKeepsInv(c: Counter, op: Op)
    requires MachineRuns.Inv(c.m)
    ensures MachineRuns.Inv(Counters.Step(c, op).m) && Counters.Step(c, op).m.b == c.m.b
  {
    match op
    case Delta(delta) => LatchedFeeds(c, delta);
    case Expire =>
      MachineRuns.RawKeeps(c.m, true);
      MachineRuns.RawKeeps(c.m, false);
    case ReadCount =>
    case ResetCount => MachineRuns.StepKeeps(c.m, Label.Reset);
    case Tick(d) => MachineRuns.StepKeeps(c.m, Advance(d));
    case Inhibited(v) => MachineRuns.StepKeeps(c.m, Inhibit(v));
    case Timer(k) => MachineRuns.StepKeeps(c.m, Fire(k));
  }

  lemma {:induction false} RunKeepsMachineInv(cfg: Config, b: Behavior, t0: int, ops: seq<Op>)
    ensures MachineRuns.Inv(Run(Started(cfg, b, t0), ops).m) && Run(Started(cfg, b, t0), ops).m.b == b
  {
    if ops == [] {
      MachineRuns.RunKeepsInv(b, t0, []);
      LatchedFeeds(Counters.New(cfg, b, t0).(m := Boot(b, t0)), 0);
    } else {
      RunKeepsMachineInv(cfg, b, t0, ops[..|ops| - 1]);
      StepKeepsInv(Run(Started(cfg, b, t0), ops[..|ops| - 1]), ops[|ops| - 1]);
    }
  }

  /** What is known of a counter in any run. */
  predicate Sound(c: Counter) {
    MachineRuns.Inv(c.m) && Straight(c.cfg) && c.expiry.None?
  }

  lemma RunIsSound(cfg: Config, b: Behavior, t0: int, ops: seq<Op>)
    requires Straight(cfg)
    ensures Sound(Run(Started(cfg, b, t0), ops)) && Run(Started(cfg, b, t0), ops).m.b == b
  {
    RunKeepsMachineInv(cfg, b, t0, ops);
    RunFollows(cfg, b, t0, ops);
  }

  // ----- one operation -----

  /** The verdict on the count after `delta`. */
  predicate MatchedAfter(c: Counter, delta: int) {
    Matched(c.(count := Walk(c.count, [delta])))
  }

  /** Whether an operation lowers the output, from the state before it. */
  predicate Lowers(c: Counter, op: Op) {
    match op
    case ResetCount => true
    case Delta(delta) =>
      !c.m.b.latch && c.m.b.deactivateAfter <= 0 && c.m.state.Active? && !MatchedAfter(c, delta)
    case Timer(k) =>
      && !c.m.b.latch
      && (if c.m.state.Active? then k.Timeout? && Due(c.m.timeoutTimer, c.m.now)
          else k.Deactivate? && Due(c.m.pendingTimer, c.m.now))
    case _ => false
  }

  lemma DeltaFeeds(c: Counter, delta: int)
    requires Straight(c.cfg)
    ensures ApplyDelta(c, delta) ==
            c.(count := Walk(c.count, [delta]), m := SetRawInput(c.m, MatchedAfter(c, delta)))
  {
    assert [delta][..0] == [];
    assert Walk(c.count, [delta]) == if c.count + delta < 0 then 0 else c.count + delta;
  }

  lemma FeedLowersIff(m: Machine, v: bool)
    requires MachineRuns.Inv(m) && Raised(m)
    ensures Raised(SetRawInput(m, v)) <==> m.b.latch || m.b.deactivateAfter > 0 || !m.state.Active? || v
    ensures SetRawInput(m, v).state.Active? <==> m.b.latch || v
  {
  }

  lemma DeltaLowersIff(c: Counter, delta: int)
    requires Sound(c) && Raised(c.m)
    ensures var n := ApplyDelta(c, delta);
            && (Raised(n.m) <==> !Lowers(c, Delta(delta)))
            && (n.m.state.Active? <==> c.m.b.latch || MatchedAfter(c, delta))
            && (Matched(n) <==> MatchedAfter(c, delta))
  {
    DeltaFeeds(c, delta);
    FeedLowersIff(c.m, MatchedAfter(c, delta));
  }

  lemma TimerLowersIff(m: Machine, k: Kind)
    requires MachineRuns.Inv(m) && Raised(m)
    ensures !Raised(FireTimer(m, k)) <==>
            && !m.b.latch
            && (if m.state.Active? then k.Timeout? && Due(m.timeoutTimer, m.now)
                else k.Deactivate? && Due(m.pendingTimer, m.now))
  {
  }

  lemma StepLowersIff(c: Counter, op: Op)
    requires Sound(c) && Raised(c.m)
    ensures !Raised(Counters.Step(c, op).m) <==> Lowers(c, op)
  {
    match op
    case Delta(delta) => DeltaLowersIff(c, delta);
    case Timer(k) => TimerLowersIff(c.m, k);
    case _ =>
  }

  /** In every run a call that finds the output up leaves the machine active
      exactly when there is a latch or the new count satisfies the preset. */
  lemma {:induction false} OutputFollowsCount(cfg: Config, b: Behavior, t0: int, ops: seq<Op>, delta: int)
    requires Straight(cfg) && Raised(Run(Started(cfg, b, t0), ops).m)
    ensures var n := Counters.Step(Run(Started(cfg, b, t0), ops), Delta(delta));
            n.m.state.Active? <==> b.latch || Matched(n)
  {
    var c := Run(Started(cfg, b, t0), ops);
    RunIsSound(cfg, b, t0, ops);
    DeltaLowersIff(c, delta);
  }

  /** In every run the output falls exactly on a reset or, with no latch, on a
      call that takes the count off the preset and has no `deactivate_after` to
      wait for, when that wait is over, or on a timeout. */
  lemma {:induction false} OutputFallsIff(cfg: Config, b: Behavior, t0: int, ops: seq<Op>, op: Op)
    requires Straight(cfg) && Raised(Run(Started(cfg, b, t0), ops).m)
    ensures var c := Run(Started(cfg, b, t0), ops);
            !Raised(Counters.Step(c, op).m) <==> Lowers(c, op)
  {
    RunIsSound(cfg, b, t0, ops);
    StepLowersIff(Run(Started(cfg, b, t0), ops), op);
  }

  // ----- until the reset -----

  /** Up, and either latched or sure to stay up while only counting up. */
  predicate HeldUp(c: Counter) {
    Sound(c) && Raised(c.m) && (c.m.b.latch || Up(c))
  }

  lemma {:induction false} HeldUpStep(c: Counter, op: Op)
    requires HeldUp(c) && !op.ResetCount? && (c.m.b.latch || (op.Delta? ==> op.delta >= 0))
    ensures HeldUp(Counters.Step(c, op)) && Counters.Step(c, op).m.b == c.m.b
  {
    StepKeepsInv(c, op);
    StepLowersIff(c, op);
    if op.Delta? { DeltaFollows(c, op.delta); } else { OtherFollows(c, op); }
    if !c.m.b.latch {
      UpStep(c, op);
      assert op.Delta? ==> [op.delta][..0] == [];
    }
  }

  /** The output stays up until a reset, through anything else, if there is a
      latch; and without one if the count only goes up, the input is asserted
      and no timeout is configured. */
  lemma {:induction false} OutputStaysUpUntilReset(cfg: Config, b: Behavior, t0: int, ops: seq<Op>, more: seq<Op>)
    requires Straight(cfg) && Raised(Run(Started(cfg, b, t0), ops).m) && ResetCount !in more
    requires b.latch
          || (!cfg.countDown && b.timeout <= 0 && OnlyUp(more) && Run(Started(cfg, b, t0), ops).m.rawInput)
    ensures Raised(Run(Run(Started(cfg, b, t0), ops), more).m)
  {
    RunIsSound(cfg, b, t0, ops);
    RunFollows(cfg, b, t0, ops);
    HeldUpRun(Run(Started(cfg, b, t0), ops), more);
  }

  lemma {:induction false} HeldUpRun(c: Counter, more: seq<Op>)
    requires HeldUp(c) && ResetCount !in more && (c.m.b.latch || OnlyUp(more))
    ensures HeldUp(Run(c, more)) && Run(c, more).m.b == c.m.b
  {
    if more != [] {
      HeldUpRun(c, more[..|more| - 1]);
      HeldUpStep(Run(c, more[..|more| - 1]), more[|more| - 1]);
    }
  }

  /** Without a latch the output does not stay up until a reset: three up to a
      preset of 3 raise it and one down lowers it. */
  lemma FallsWithoutReset(b: Behavior, t0: int)
    requires Plain(b)
    ensures var s := Started(Config(0, 3, false, false, 0), b, t0);
            Raised(Run(s, [Delta(3)]).m) && !Raised(Run(s, [Delta(3), Delta(-1)]).m)
  {
    var cfg := Config(0, 3, false, false, 0);
    var s := Started(cfg, b, t0);
    assert [Delta(3)][..0] == [] && [Delta(3), Delta(-1)][..1] == [Delta(3)];
    assert [3][..0] == [] && [-1][..0] == [];
    assert s == Counters.New(cfg, b, t0);
    DeltaFeeds(s, 3);
    OutputFallsIff(cfg, b, t0, [Delta(3)], Delta(-1));
  }
}
