/** The counter condition as a value: a running count, or the number of events
    in a sliding window, compared with a preset and fed to the condition
    machine. Counts are unbounded integers. */
module Counters {
  import opened Options
  import opened ConditionMachine
  import opened MachineRuns

  datatype Config = Config(initial: int, preset: int, rollover: bool, countDown: bool, window: int)

  /** What the configuration reader lets through (a window excludes rollover,
      counting down and a non-zero initial count). */
  predicate Accepted(c: Config) {
    c.window > 0 ==> !c.rollover && !c.countDown && c.initial == 0
  }

  datatype Counter = Counter(cfg: Config, m: Machine, count: int, events: seq<int>, expiry: Option<int>)

  predicate Matched(c: Counter) {
    if c.cfg.countDown then c.count <= c.cfg.preset else c.count >= c.cfg.preset
  }

  /** The number of leading events at or before `cutoff`. */
  function Expired(events: seq<int>, cutoff: int): (n: nat)
    ensures n <= |events|
  {
    if events == [] || events[0] > cutoff then 0 else 1 + Expired(events[1..], cutoff)
  }

  function Prune(c: Counter): Counter {
    var drop := Expired(c.events, c.m.now - c.cfg.window);
    if c.cfg.window <= 0 || drop == 0 then c
    else c.(events := c.events[drop..], count := |c.events| - drop)
  }

  function ArmExpiry(c: Counter): Counter {
    c.(expiry := if c.events == [] then None
                 else
                   var due := c.events[0] + c.cfg.window;
                   Some(if due < c.m.now then c.m.now else due))
  }

  function Repeat(at: int, n: nat): (s: seq<int>)
    ensures |s| == n && forall i :: 0 <= i < n ==> s[i] == at
  {
    seq(n, _ => at)
  }

  function PopOldest(events: seq<int>, n: nat): seq<int> {
    events[if n < |events| then n else |events|..]
  }

  function Feed(c: Counter, value: bool): Counter {
    c.(m := SetRawInput(c.m, value))
  }

  /** The FIFO after `delta` more events at `now`, or the oldest removed. */
  function Shifted(events: seq<int>, now: int, delta: int): seq<int> {
    if delta > 0 then events + Repeat(now, delta)
    else if delta < 0 then PopOldest(events, -delta)
    else events
  }

  function ApplyWindowedDelta(c: Counter, delta: int): Counter {
    var events := Shifted(Prune(c).events, c.m.now, delta);
    var a := ArmExpiry(Prune(c).(events := events, count := |events|));
    Feed(a, Matched(a))
  }

  function ApplyDelta(c: Counter, delta: int): Counter {
    if c.cfg.window > 0 then ApplyWindowedDelta(c, delta)
    else
      var sum := c.count + delta;
      var d := c.(count := if sum < 0 then 0 else sum);
      if !Matched(d) then Feed(d, false)
      else
        var u := Feed(d, true);
        if !u.cfg.rollover then u
        else
          var back := u.(count := u.cfg.initial);
          if Matched(back) then back else Feed(back, false)
  }

  function Count(c: Counter): Counter {
    if c.cfg.window > 0 && c.events != [] then Prune(c) else c
  }

  function Reset(c: Counter): Counter {
    c.(count := c.cfg.initial, events := [], expiry := None, m := Clear(c.m))
  }

  function OnWindowExpire(c: Counter): Counter {
    var a := ArmExpiry(Prune(c.(expiry := None)));
    Feed(a, Matched(a))
  }

  function New(cfg: Config, b: Behavior, t0: int): Counter {
    Counter(cfg, ConditionMachine.New(b, t0), cfg.initial, [], None)
  }

  function Start(c: Counter): Counter {
    ApplyDelta(c.(m := Bootstrap(c.m)), 0)
  }

  datatype Op =
    | Delta(delta: int)
    | ReadCount
    | ResetCount
    | Expire
    | Tick(d: nat)
    | Inhibited(inhibit: bool)
    | Timer(k: Kind)

  function Step(c: Counter, op: Op): Counter {
    match op
    case Delta(delta) => ApplyDelta(c, delta)
    case ReadCount => Count(c)
    case ResetCount => Reset(c)
    case Expire => if c.expiry.Some? && c.expiry.value <= c.m.now then OnWindowExpire(c) else c
    case Tick(d) => c.(m := ConditionMachine.Step(c.m, Advance(d)))
    case Inhibited(v) => c.(m := ConditionMachine.Step(c.m, Inhibit(v)))
    case Timer(k) => c.(m := ConditionMachine.Step(c.m, Fire(k)))
  }

  function Run(c: Counter, ops: seq<Op>): Counter {
    if ops == [] then c else Step(Run(c, ops[..|ops| - 1]), ops[|ops| - 1])
  }

  function Started(cfg: Config, b: Behavior, t0: int): Counter {
    Start(New(cfg, b, t0))
  }

  // ----- rollover -----

  /** Every behaviour off but inversion. */
  predicate Plain(b: Behavior) {
    && b.activateAfter <= 0 && b.deactivateAfter <= 0 && b.timeout <= 0 && b.cooldown <= 0
    && !b.latch && !b.retentive && !b.startActive
  }

  /** Counting up with rollover from an initial count below the preset. */
  predicate RollsOver(cfg: Config) {
    cfg.window <= 0 && cfg.rollover && !cfg.countDown && 0 <= cfg.initial < cfg.preset
  }

  /** Between calls: the machine idle, the count short of the preset. */
  predicate Idle(c: Counter) {
    && RollsOver(c.cfg) && Plain(c.m.b)
    && c.m.state.Inactive? && !c.m.rawInput && !c.m.inhibited && c.m.cooldownUntil.None? && !c.m.latched
    && c.cfg.initial <= c.count < c.cfg.preset
  }

  /** `n` rise/fall pulses, as a watcher sees them. */
  function Pulses(invert: bool, n: nat): seq<Note> {
    if n == 0 then [] else Pulses(invert, n - 1) + [Note(invert, !invert), Note(!invert, invert)]
  }

  lemma AddRolls(c: Counter, delta: nat)
    requires Idle(c)
    ensures Rolled(c, delta, ApplyDelta(c, delta))
  {
  }

  function Total(deltas: seq<nat>): nat {
    if deltas == [] then 0 else Total(deltas[..|deltas| - 1]) + deltas[|deltas| - 1]
  }

  function AddAll(c: Counter, deltas: seq<nat>): Counter {
    if deltas == [] then c else ApplyDelta(AddAll(c, deltas[..|deltas| - 1]), deltas[|deltas| - 1])
  }

  lemma StartsIdle(cfg: Config, b: Behavior, t0: int)
    requires RollsOver(cfg) && Plain(b)
    ensures var c := Started(cfg, b, t0);
            Idle(c) && c.cfg == cfg && c.m.b == b && c.count == cfg.initial && c.m.notes == []
  {
  }

  /** What adding `delta` to an idle counter does. */
  predicate Rolled(c: Counter, delta: nat, n: Counter) {
    var invert := c.m.b.invert;
    && Idle(n) && n.cfg == c.cfg && n.m.b == c.m.b
    && (if c.count + delta < c.cfg.preset
        then n.count == c.count + delta && n.m.notes == c.m.notes
        else n.count == c.cfg.initial && n.m.notes == c.m.notes + [Note(invert, !invert), Note(!invert, invert)])
  }

  /** `c` has pulsed `pulses` times, using up no more than `total`. */
  predicate Accounted(c: Counter, cfg: Config, b: Behavior, pulses: nat, total: nat) {
    && Idle(c) && c.cfg == cfg && c.m.b == b
    && c.m.notes == Pulses(b.invert, pulses)
    && pulses * (cfg.preset - cfg.initial) + (c.count - cfg.initial) <= total
  }

  lemma AccountedStep(c: Counter, cfg: Config, b: Behavior, pulses: nat, total: nat, delta: nat, n: Counter)
    returns (more: nat)
    requires Accounted(c, cfg, b, pulses, total) && Rolled(c, delta, n)
    ensures more <= pulses + 1 && Accounted(n, cfg, b, more, total + delta)
  {
    if c.count + delta < cfg.preset {
      more := pulses;
    } else {
      more := pulses + 1;
      assert more * (cfg.preset - cfg.initial) == pulses * (cfg.preset - cfg.initial) + (cfg.preset - cfg.initial);
    }
  }

  lemma {:induction false} PulsesAccounted(c: Counter, cfg: Config, b: Behavior, deltas: seq<nat>) returns (pulses: nat)
    requires Accounted(c, cfg, b, 0, 0)
    ensures Accounted(AddAll(c, deltas), cfg, b, pulses, Total(deltas)) && pulses <= |deltas|
  {
    if deltas == [] {
      pulses := 0;
    } else {
      var n := |deltas| - 1;
      pulses := PulsesAccounted(c, cfg, b, deltas[..n]);
      var before := AddAll(c, deltas[..n]);
      AddRolls(before, deltas[n]);
      pulses := AccountedStep(before, cfg, b, pulses, Total(deltas[..n]), deltas[n], ApplyDelta(before, deltas[n]));
    }
  }

  /** For any deltas, what watchers see is a number of whole pulses, at most
      one per call, and together with the count they account for no more than
      was added: each used up at least `preset - initial`. */
  lemma {:induction false} PulsesNeedCounts(cfg: Config, b: Behavior, t0: int, deltas: seq<nat>) returns (pulses: nat)
    requires RollsOver(cfg) && Plain(b)
    ensures var c := AddAll(Started(cfg, b, t0), deltas);
            && c.m.notes == Pulses(b.invert, pulses)
            && pulses * (cfg.preset - cfg.initial) + (c.count - cfg.initial) <= Total(deltas)
            && cfg.initial <= c.count < cfg.preset
            && pulses <= |deltas|
  {
    StartsIdle(cfg, b, t0);
    pulses := PulsesAccounted(Started(cfg, b, t0), cfg, b, deltas);
  }

  function Ones(n: nat): seq<nat> {
    seq(n, _ => 1)
  }

  /** `c` has pulsed `q` times and then counted `r` more, `n` in all. */
  predicate Rolls(c: Counter, cfg: Config, b: Behavior, n: nat, q: nat, r: nat) {
    && Idle(c) && c.cfg == cfg && c.m.b == b
    && c.count == cfg.initial + r && c.m.notes == Pulses(b.invert, q)
    && n == q * (cfg.preset - cfg.initial) + r
  }

  lemma RollsOnce(c: Counter, d: Counter, cfg: Config, b: Behavior, n: nat, q: nat, r: nat) returns (q': nat, r': nat)
    requires Rolls(c, cfg, b, n, q, r) && Rolled(c, 1, d)
    ensures Rolls(d, cfg, b, n + 1, q', r')
  {
    var p := cfg.preset - cfg.initial;
    if r + 1 < p {
      q', r' := q, r + 1;
    } else {
      q', r' := q + 1, 0;
      assert (q + 1) * p == q * p + p;
    }
  }

  lemma {:induction false} UnitRolls(c: Counter, cfg: Config, b: Behavior, n: nat) returns (q: nat, r: nat)
    requires Rolls(c, cfg, b, 0, 0, 0)
    ensures Rolls(AddAll(c, Ones(n)), cfg, b, n, q, r)
  {
    if n == 0 {
      q, r := 0, 0;
    } else {
      q, r := UnitRolls(c, cfg, b, n - 1);
      assert Ones(n)[..n - 1] == Ones(n - 1);
      var d := AddAll(c, Ones(n - 1));
      AddRolls(d, 1);
      q, r := RollsOnce(d, ApplyDelta(d, 1), cfg, b, n - 1, q, r);
    }
  }

  /** `n` unit increments leave the count at `initial + n mod p` after exactly
      `n div p` pulses, with `p = preset - initial`. */
  lemma UnitRollover(cfg: Config, b: Behavior, t0: int, n: nat)
    requires RollsOver(cfg) && Plain(b)
    ensures var c := AddAll(Started(cfg, b, t0), Ones(n));
            var p := cfg.preset - cfg.initial;
            c.count == cfg.initial + n % p && c.m.notes == Pulses(b.invert, n / p)
  {
    StartsIdle(cfg, b, t0);
    var q, r := UnitRolls(Started(cfg, b, t0), cfg, b, n);
    DivModUnique(n, cfg.preset - cfg.initial, q, r);
  }

  lemma DivModUnique(n: nat, p: nat, q: nat, r: nat)
    requires r < p && n == q * p + r
    ensures n / p == q && n % p == r
  {
    assert n == (n / p) * p + n % p;
    assert (n / p - q) * p == (n / p) * p - q * p;
    SmallMultiple(n / p - q, p);
  }

  lemma SmallMultiple(d: int, p: int)
    requires p > 0 && -p < d * p < p
    ensures d == 0
  {
    assert d >= 1 ==> d * p >= 1 * p;
    assert d <= -1 ==> d * p <= -1 * p;
  }

  // ----- rollover under a latch -----

  /** While latched, counting changes the count and nothing a watcher sees. */
  lemma LatchedCountingIsSilent(c: Counter, delta: int)
    requires c.m.latched && c.m.state.Active?
    ensures var n := ApplyDelta(c, delta);
            n.m.latched && n.m.state.Active? && n.m.notes == c.m.notes
  {
  }

  /** Nor does anything else but a reset lower a latched counter's output. */
  lemma {:induction false} LatchedUntilReset(c: Counter, op: Op)
    requires c.m.b.latch && Inv(c.m) && c.m.latched && !op.ResetCount?
    ensures var n := Step(c, op);
            Inv(n.m) && n.m.latched && n.m.state.Active? && n.m.notes == c.m.notes && n.m.b == c.m.b
  {
    match op
    case Delta(delta) =>
      LatchedCountingIsSilent(c, delta);
      LatchedFeeds(c, delta);
    case Expire =>
      RawKeeps(c.m, true);
      RawKeeps(c.m, false);
    case Tick(d) => StepKeeps(c.m, Advance(d));
    case Inhibited(v) => StepKeeps(c.m, Inhibit(v));
    case Timer(k) => StepKeeps(c.m, Fire(k));
    case _ =>
  }

  lemma LatchedFeeds(c: Counter, delta: int)
    requires Inv(c.m)
    ensures Inv(ApplyDelta(c, delta).m) && ApplyDelta(c, delta).m.b == c.m.b
  {
    RawKeeps(c.m, true);
    RawKeeps(c.m, false);
    RawKeeps(SetRawInput(c.m, true), false);
  }

  /** Until the reset, watchers of a latched counter hear nothing, however
      often it rolls over. */
  lemma {:induction false} LatchedRunIsSilent(c: Counter, ops: seq<Op>)
    requires c.m.b.latch && Inv(c.m) && c.m.latched && ResetCount !in ops
    ensures var n := Run(c, ops);
            Inv(n.m) && n.m.latched && n.m.notes == c.m.notes && n.m.b == c.m.b
  {
    if ops != [] {
      LatchedRunIsSilent(c, ops[..|ops| - 1]);
      LatchedUntilReset(Run(c, ops[..|ops| - 1]), ops[|ops| - 1]);
    }
  }
}
