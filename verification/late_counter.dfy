/** A counter whose timers' callbacks may run late: its own expiry callback at
    any moment, and the machine's strays as in `late_callbacks.dfy`. Under a
    latch none of this makes a watcher hear anything before a reset. */
module LateCounters {
  import opened ConditionMachine
  import opened LateCallbacks
  import opened Counters

  datatype LateOp = OnTime(op: Op) | LateExpire | LateCallback(i: nat)

  /** A counter and the machine timers that outlived their fields. */
  datatype LateCounter = LateCounter(c: Counter, strays: seq<Stray>)

  /** What an operation does to the machine, label by label. */
  function Feeds(c: Counter, op: Op): seq<LateLabel> {
    match op
    case Delta(delta) =>
      var n := ApplyDelta(c, delta);
      if c.cfg.window > 0 then [Prompted(Raw(Matched(n)))]
      else
        var sum := c.count + delta;
        var d := c.(count := if sum < 0 then 0 else sum);
        if !Matched(d) then [Prompted(Raw(false))]
        else if d.cfg.rollover && !Matched(d.(count := d.cfg.initial)) then [Prompted(Raw(true)), Prompted(Raw(false))]
        else [Prompted(Raw(true))]
    case ReadCount => []
    case ResetCount => [Prompted(Reset)]
    case Expire => if c.expiry.Some? && c.expiry.value <= c.m.now then Expiring(c) else []
    case Tick(d) => [Prompted(Advance(d))]
    case Inhibited(v) => [Prompted(Inhibit(v))]
    case Timer(k) => [Prompted(Fire(k))]
  }

  function Expiring(c: Counter): seq<LateLabel> {
    [Prompted(Raw(Matched(OnWindowExpire(c))))]
  }

  function LateCounterStep(l: LateCounter, op: LateOp): LateCounter {
    var h := Haunted(l.c.m, l.strays);
    match op
    case OnTime(op) => LateCounter(Counters.Step(l.c, op), RunFrom(h, Feeds(l.c, op)).strays)
    case LateExpire => LateCounter(OnWindowExpire(l.c), RunFrom(h, Expiring(l.c)).strays)
    case LateCallback(i) =>
      var n := LateStep(h, Late(i));
      LateCounter(l.c.(m := n.m), n.strays)
  }

  function LateCounterRun(l: LateCounter, ops: seq<LateOp>): LateCounter {
    if ops == [] then l else LateCounterStep(LateCounterRun(l, ops[..|ops| - 1]), ops[|ops| - 1])
  }

  /** The labels account for the machine: an operation on the counter is that
      run of its machine. */
  lemma FeedsDrive(c: Counter, strays: seq<Stray>, op: Op)
    ensures RunFrom(Haunted(c.m, strays), Feeds(c, op)).m == Counters.Step(c, op).m
  {
    var h, ls := Haunted(c.m, strays), Feeds(c, op);
    if |ls| == 1 { RunOne(h, ls); }
    match op
    case Delta(delta) => DeltaDrives(c, strays, delta);
    case Expire => if ls != [] { ExpiringDrives(c, strays); }
    case _ =>
  }

  lemma RunOne(h: Haunted, ls: seq<LateLabel>)
    requires |ls| == 1
    ensures RunFrom(h, ls) == LateStep(h, ls[0])
  {
    assert ls[..0] == [];
  }

  lemma RunTwo(h: Haunted, ls: seq<LateLabel>)
    requires |ls| == 2
    ensures RunFrom(h, ls) == LateStep(LateStep(h, ls[0]), ls[1])
  {
    assert ls[..1] == [ls[0]];
    RunOne(h, ls[..1]);
  }

  lemma DeltaDrives(c: Counter, strays: seq<Stray>, delta: int)
    ensures RunFrom(Haunted(c.m, strays), Feeds(c, Delta(delta))).m == ApplyDelta(c, delta).m
  {
    var h, ls := Haunted(c.m, strays), Feeds(c, Delta(delta));
    if |ls| == 1 { RunOne(h, ls); } else { RunTwo(h, ls); }
  }

  lemma ExpiringDrives(c: Counter, strays: seq<Stray>)
    ensures RunFrom(Haunted(c.m, strays), Expiring(c)).m == OnWindowExpire(c).m
  {
    RunOne(Haunted(c.m, strays), Expiring(c));
  }

  /** What a latched machine keeps and watchers hear, from `h` on. */
  predicate Silent(h: Haunted, n: Haunted) {
    LatchGuarded(n) && n.m.b == h.m.b && Raised(n.m) && n.m.notes == h.m.notes
  }

  lemma {:induction false} SilentRun(h: Haunted, ls: seq<LateLabel>)
    requires LatchGuarded(h) && Raised(h.m) && Prompted(Reset) !in ls
    ensures Silent(h, RunFrom(h, ls))
  {
    if ls != [] {
      var p, l := RunFrom(h, ls[..|ls| - 1]), ls[|ls| - 1];
      SilentRun(h, ls[..|ls| - 1]);
      LateStepKeepsLatch(p, l);
      LateStepNotifies(p, l);
    }
  }

  lemma {:induction false} GuardedRun(h: Haunted, ls: seq<LateLabel>)
    requires LatchGuarded(h)
    ensures LatchGuarded(RunFrom(h, ls)) && RunFrom(h, ls).m.b == h.m.b
  {
    if ls != [] {
      GuardedRun(h, ls[..|ls| - 1]);
      LateStepKeepsLatch(RunFrom(h, ls[..|ls| - 1]), ls[|ls| - 1]);
    }
  }

  /** The machine run that one operation of the counter amounts to. */
  function Labels(c: Counter, op: LateOp): seq<LateLabel> {
    match op
    case OnTime(op) => Feeds(c, op)
    case LateExpire => Expiring(c)
    case LateCallback(i) => [Late(i)]
  }

  lemma LabelsDrive(l: LateCounter, op: LateOp)
    ensures var n := LateCounterStep(l, op);
            RunFrom(Haunted(l.c.m, l.strays), Labels(l.c, op)) == Haunted(n.c.m, n.strays)
  {
    match op
    case OnTime(op) => FeedsDrive(l.c, l.strays, op);
    case LateExpire => ExpiringDrives(l.c, l.strays);
    case LateCallback(i) => assert [Late(i)][..0] == [];
  }

  predicate Guarded(l: LateCounter) {
    LatchGuarded(Haunted(l.c.m, l.strays))
  }

  lemma {:induction false} RunGuarded(cfg: Config, b: Behavior, t0: int, ops: seq<LateOp>)
    requires b.latch
    ensures Guarded(LateCounterRun(LateCounter(Started(cfg, b, t0), []), ops))
  {
    var s := LateCounter(Started(cfg, b, t0), []);
    if ops == [] {
      var c := Counters.New(cfg, b, t0).(m := Boot(b, t0));
      FeedsDrive(c, [], Delta(0));
      GuardedRun(Haunted(c.m, []), Feeds(c, Delta(0)));
    } else {
      var l := LateCounterRun(s, ops[..|ops| - 1]);
      RunGuarded(cfg, b, t0, ops[..|ops| - 1]);
      LabelsDrive(l, ops[|ops| - 1]);
      GuardedRun(Haunted(l.c.m, l.strays), Labels(l.c, ops[|ops| - 1]));
    }
  }

  lemma NoResetLabel(c: Counter, op: LateOp)
    requires op != OnTime(ResetCount)
    ensures Prompted(Reset) !in Labels(c, op)
  {
  }

  /** However late callbacks run, watchers of a latched counter hear nothing
      until it is reset, however often it rolls over meanwhile. */
  lemma {:induction false} LateLatchedRunIsSilent(
    cfg: Config, b: Behavior, t0: int, ops: seq<LateOp>, more: seq<LateOp>)
    requires b.latch && OnTime(ResetCount) !in more
    requires LateCounterRun(LateCounter(Started(cfg, b, t0), []), ops).c.m.latched
    ensures var l := LateCounterRun(LateCounter(Started(cfg, b, t0), []), ops);
            var n := LateCounterRun(l, more);
            n.c.m.latched && n.c.m.notes == l.c.m.notes
  {
    RunGuarded(cfg, b, t0, ops);
    SilentFrom(LateCounterRun(LateCounter(Started(cfg, b, t0), []), ops), more);
  }

  lemma {:induction false} SilentFrom(l: LateCounter, more: seq<LateOp>)
    requires Guarded(l) && Raised(l.c.m) && OnTime(ResetCount) !in more
    ensures var n := LateCounterRun(l, more);
            Silent(Haunted(l.c.m, l.strays), Haunted(n.c.m, n.strays))
  {
    if more != [] {
      var p, op := LateCounterRun(l, more[..|more| - 1]), more[|more| - 1];
      SilentFrom(l, more[..|more| - 1]);
      LabelsDrive(p, op);
      NoResetLabel(p.c, op);
      SilentRun(Haunted(p.c.m, p.strays), Labels(p.c, op));
    }
  }
}
