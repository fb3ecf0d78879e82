/** The sliding-window counter against the log of everything that ever happened
    to it: its FIFO, which is pruned from the front and popped from the front,
    is the log filtered by age. */
module SlidingWindow {
  import opened Options
  import opened ConditionMachine
  import opened MachineInput
  import opened Counters

  /** An event, and whether a decrement or a reset has removed it. */
  datatype Event = Event(at: int, popped: bool)

  predicate Counts(e: Event, cutoff: int) {
    !e.popped && e.at > cutoff
  }

  /** The instants of the events that count, oldest first. */
  function Alive(events: seq<Event>, cutoff: int): seq<int> {
    if events == [] then []
    else
      var e := events[|events| - 1];
      Alive(events[..|events| - 1], cutoff) + (if Counts(e, cutoff) then [e.at] else [])
  }

  /** Marks the `k` oldest events that count: those with fewer than `k` before them. */
  function Pop(events: seq<Event>, cutoff: int, k: nat): (r: seq<Event>)
    ensures |r| == |events| && forall i :: 0 <= i < |r| ==> r[i].at == events[i].at
  {
    if events == [] then []
    else
      var p := events[..|events| - 1];
      var e := events[|events| - 1];
      Pop(p, cutoff, k) + [if Counts(e, cutoff) && |Alive(p, cutoff)| < k then e.(popped := true) else e]
  }

  function Added(at: int, n: nat): (r: seq<Event>)
    ensures |r| == n && forall i :: 0 <= i < n ==> r[i] == Event(at, false)
  {
    seq(n, _ => Event(at, false))
  }

  /** The log after an operation on a counter with clock `now` and window `w`. */
  function Log(events: seq<Event>, now: int, w: int, op: Op): seq<Event> {
    match op
    case Delta(delta) =>
      if delta > 0 then events + Added(now, delta)
      else if delta < 0 then Pop(events, now - w, -delta)
      else events
    case ResetCount => []
    case _ => events
  }

  function LogOf(cfg: Config, b: Behavior, t0: int, ops: seq<Op>): seq<Event> {
    if ops == [] then []
    else
      var p := ops[..|ops| - 1];
      Log(LogOf(cfg, b, t0, p), Run(Started(cfg, b, t0), p).m.now, cfg.window, ops[|ops| - 1])
  }

  // ----- filters -----

  function Fresh(s: seq<int>, cutoff: int): seq<int> {
    if s == [] then []
    else Fresh(s[..|s| - 1], cutoff) + (if s[|s| - 1] > cutoff then [s[|s| - 1]] else [])
  }

  predicate Sorted(s: seq<int>, now: int) {
    && (forall i, j :: 0 <= i < j < |s| ==> s[i] <= s[j])
    && (forall i :: 0 <= i < |s| ==> s[i] <= now)
  }

  lemma {:induction false} FreshAll(s: seq<int>, cutoff: int)
    requires forall i :: 0 <= i < |s| ==> s[i] > cutoff
    ensures Fresh(s, cutoff) == s
  {
    if s != [] {
      FreshAll(s[..|s| - 1], cutoff);
      assert s == s[..|s| - 1] + [s[|s| - 1]];
    }
  }

  lemma {:induction false} FreshNone(s: seq<int>, cutoff: int)
    requires forall i :: 0 <= i < |s| ==> s[i] <= cutoff
    ensures Fresh(s, cutoff) == []
  {
    if s != [] {
      FreshNone(s[..|s| - 1], cutoff);
    }
  }

  lemma {:induction false} FreshConcat(s: seq<int>, t: seq<int>, cutoff: int)
    ensures Fresh(s + t, cutoff) == Fresh(s, cutoff) + Fresh(t, cutoff)
    decreases |t|
  {
    if t == [] {
      assert s + t == s;
    } else {
      FreshConcat(s, t[..|t| - 1], cutoff);
      assert (s + t)[..|s + t| - 1] == s + t[..|t| - 1];
    }
  }

  lemma {:induction false} ExpiredMeans(s: seq<int>, cutoff: int, now: int)
    requires Sorted(s, now)
    ensures var n := Expired(s, cutoff);
            && (forall i :: 0 <= i < n ==> s[i] <= cutoff)
            && (forall i :: n <= i < |s| ==> s[i] > cutoff)
  {
    if s != [] && s[0] <= cutoff {
      ExpiredMeans(s[1..], cutoff, now);
      assert forall i :: 1 <= i < |s| ==> s[i] == s[1..][i - 1];
    }
  }

  /** Dropping the expired prefix of a sorted FIFO filters it by age. */
  lemma {:induction false} DropIsFilter(s: seq<int>, cutoff: int, now: int)
    requires Sorted(s, now)
    ensures s[Expired(s, cutoff)..] == Fresh(s, cutoff)
  {
    var n := Expired(s, cutoff);
    ExpiredMeans(s, cutoff, now);
    FreshSplit(s[..n], s[n..], cutoff);
    assert s == s[..n] + s[n..];
  }

  lemma {:induction false} FreshSplit(expired: seq<int>, recent: seq<int>, cutoff: int)
    requires forall i :: 0 <= i < |expired| ==> expired[i] <= cutoff
    requires forall i :: 0 <= i < |recent| ==> recent[i] > cutoff
    ensures Fresh(expired + recent, cutoff) == recent
  {
    FreshConcat(expired, recent, cutoff);
    FreshNone(expired, cutoff);
    FreshAll(recent, cutoff);
  }

  lemma {:induction false} FreshAgain(s: seq<int>, c: int, d: int)
    requires c <= d
    ensures Fresh(Fresh(s, c), d) == Fresh(s, d)
  {
    if s != [] {
      var p := s[..|s| - 1];
      FreshAgain(p, c, d);
      FreshConcat(Fresh(p, c), if s[|s| - 1] > c then [s[|s| - 1]] else [], d);
      assert [s[|s| - 1]][..0] == [];
    }
  }

  lemma {:induction false} AliveLater(events: seq<Event>, c: int, d: int)
    requires c <= d
    ensures Fresh(Alive(events, c), d) == Alive(events, d)
  {
    if events != [] {
      var p := events[..|events| - 1];
      var e := events[|events| - 1];
      AliveLater(p, c, d);
      FreshConcat(Alive(p, c), if Counts(e, c) then [e.at] else [], d);
      assert [e.at][..0] == [];
    }
  }

  lemma {:induction false} AliveAdded(events: seq<Event>, cutoff: int, at: int, n: nat)
    requires at > cutoff
    ensures Alive(events + Added(at, n), cutoff) == Alive(events, cutoff) + Repeat(at, n)
  {
    if n == 0 {
      assert events + Added(at, n) == events;
    } else {
      AliveAdded(events, cutoff, at, n - 1);
      var e := Event(at, false);
      OneMore(at, n);
      Regroup(events, Added(at, n - 1), e);
      AliveOne(events + Added(at, n - 1), e, cutoff);
      Regroup(Alive(events, cutoff), Repeat(at, n - 1), at);
    }
  }

  lemma OneMore(at: int, n: nat)
    requires n > 0
    ensures Added(at, n) == Added(at, n - 1) + [Event(at, false)] && Repeat(at, n) == Repeat(at, n - 1) + [at]
  {
  }

  lemma Regroup<T>(s: seq<T>, t: seq<T>, x: T)
    ensures s + (t + [x]) == s + t + [x]
  {
  }

  lemma {:induction false} AliveOne(events: seq<Event>, e: Event, cutoff: int)
    ensures Alive(events + [e], cutoff) == Alive(events, cutoff) + if Counts(e, cutoff) then [e.at] else []
  {
    assert (events + [e])[..|events|] == events;
  }

  /** Popping removes exactly the oldest events that count. */
  lemma {:induction false} AlivePopped(events: seq<Event>, cutoff: int, k: nat)
    ensures Alive(Pop(events, cutoff, k), cutoff) == PopOldest(Alive(events, cutoff), k)
  {
    if events != [] {
      var p := events[..|events| - 1];
      AlivePopped(p, cutoff, k);
      assert Pop(events, cutoff, k)[..|p|] == Pop(p, cutoff, k);
    }
  }

  // ----- the invariant -----

  /** A FIFO that holds, in order, every event that counts, and perhaps some
      expired ones at the front. */
  predicate Fifo(q: seq<int>, now: int, w: int, events: seq<Event>) {
    Sorted(q, now) && Fresh(q, now - w) == Alive(events, now - w)
  }

  /** A FIFO that has just been pruned. */
  predicate Pruned(q: seq<int>, now: int, w: int, events: seq<Event>) {
    && Sorted(q, now) && q == Alive(events, now - w)
    && forall i :: 0 <= i < |q| ==> q[i] > now - w
  }

  lemma PrunedIsFifo(q: seq<int>, now: int, w: int, events: seq<Event>)
    requires Pruned(q, now, w, events)
    ensures Fifo(q, now, w, events)
  {
    FreshAll(q, now - w);
  }

  lemma {:induction false} FifoPrunes(q: seq<int>, now: int, w: int, events: seq<Event>)
    requires Fifo(q, now, w, events)
    ensures Pruned(q[Expired(q, now - w)..], now, w, events)
    ensures Expired(q, now - w) > 0 ==> q[0] + w <= now
  {
    ExpiredMeans(q, now - w, now);
    DropIsFilter(q, now - w, now);
  }

  lemma {:induction false} FifoAges(q: seq<int>, now: int, w: int, events: seq<Event>, d: nat)
    requires Fifo(q, now, w, events)
    ensures Fifo(q, now + d, w, events)
  {
    FreshAgain(q, now - w, now - w + d);
    AliveLater(events, now - w, now - w + d);
  }

  lemma {:induction false} FifoAppends(q: seq<int>, now: int, w: int, events: seq<Event>, n: nat)
    requires Pruned(q, now, w, events) && w > 0
    ensures Pruned(q + Repeat(now, n), now, w, events + Added(now, n))
  {
    AliveAdded(events, now - w, now, n);
  }

  lemma {:induction false} FifoPops(q: seq<int>, now: int, w: int, events: seq<Event>, k: nat)
    requires Pruned(q, now, w, events)
    ensures Pruned(PopOldest(q, k), now, w, Pop(events, now - w, k))
  {
    AlivePopped(events, now - w, k);
  }

  /** The expiry timer is due by the time the head expires. */
  predicate Armed(q: seq<int>, expiry: Option<int>, w: int) {
    q != [] ==> expiry.Some? && expiry.value <= q[0] + w
  }

  /** An input the count no longer justifies is about to be withdrawn. */
  predicate Withdrawing(c: Counter) {
    c.m.rawInput && !Matched(c) ==> c.expiry.Some? && c.expiry.value <= c.m.now
  }

  /** The counter `c` after a history whose log is `events`. */
  predicate Tracks(c: Counter, events: seq<Event>) {
    && c.cfg.window > 0 && Accepted(c.cfg)
    && Fifo(c.events, c.m.now, c.cfg.window, events)
    && c.count == |c.events|
    && Armed(c.events, c.expiry, c.cfg.window)
    && Withdrawing(c)
  }

  lemma PruneMeans(c: Counter)
    requires c.cfg.window > 0 && c.count == |c.events|
    ensures var n := Expired(c.events, c.m.now - c.cfg.window);
            Prune(c) == c.(events := c.events[n..], count := |c.events[n..]|)
  {
  }

  lemma {:induction false} PruneTracks(c: Counter, events: seq<Event>)
    requires Tracks(c, events)
    ensures Tracks(Prune(c), events)
    ensures Pruned(Prune(c).events, c.m.now, c.cfg.window, events)
    ensures Prune(c).count == |Prune(c).events| && Prune(c).m == c.m && Prune(c).cfg == c.cfg
  {
    var n := Expired(c.events, c.m.now - c.cfg.window);
    PruneMeans(c);
    FifoPrunes(c.events, c.m.now, c.cfg.window, events);
    ShorterTracks(c, events, c.events[n..], n);
  }

  lemma {:induction false} ShorterTracks(c: Counter, events: seq<Event>, q: seq<int>, n: nat)
    requires Tracks(c, events) && n <= |c.events| && q == c.events[n..]
    requires Pruned(q, c.m.now, c.cfg.window, events) && (n > 0 ==> c.events[0] + c.cfg.window <= c.m.now)
    ensures Tracks(c.(events := q, count := |q|), events)
  {
    PrunedIsFifo(q, c.m.now, c.cfg.window, events);
  }

  lemma {:induction false} ArmTracks(c: Counter, events: seq<Event>)
    requires c.cfg.window > 0 && Accepted(c.cfg) && c.count == |c.events|
    requires Pruned(c.events, c.m.now, c.cfg.window, events)
    ensures var a := ArmExpiry(c); Tracks(Feed(a, Matched(a)), events)
  {
    PrunedIsFifo(c.events, c.m.now, c.cfg.window, events);
    RawSet(c.m, Matched(c));
  }

  lemma {:induction false} FifoShifts(q: seq<int>, now: int, w: int, events: seq<Event>, delta: int)
    requires Pruned(q, now, w, events) && w > 0
    ensures Pruned(Shifted(q, now, delta), now, w, Log(events, now, w, Delta(delta)))
  {
    if delta > 0 {
      FifoAppends(q, now, w, events, delta);
    } else if delta < 0 {
      FifoPops(q, now, w, events, -delta);
    }
  }

  lemma {:induction false} DeltaTracks(c: Counter, events: seq<Event>, delta: int)
    requires Tracks(c, events)
    ensures Tracks(ApplyDelta(c, delta), Log(events, c.m.now, c.cfg.window, Delta(delta)))
  {
    PruneTracks(c, events);
    var q := Shifted(Prune(c).events, c.m.now, delta);
    FifoShifts(Prune(c).events, c.m.now, c.cfg.window, events, delta);
    ArmTracks(Prune(c).(events := q, count := |q|), Log(events, c.m.now, c.cfg.window, Delta(delta)));
  }

  lemma {:induction false} ExpireTracks(c: Counter, events: seq<Event>)
    requires Tracks(c, events)
    ensures Tracks(OnWindowExpire(c), events)
  {
    PruneTracks(c, events);
    PruneMeans(c);
    PruneMeans(c.(expiry := None));
    assert Prune(c.(expiry := None)) == Prune(c).(expiry := None);
    ArmTracks(Prune(c).(expiry := None), events);
  }

  /** A machine step that only ages the counter or withdraws its input. */
  lemma {:induction false} MachineTracks(c: Counter, events: seq<Event>, m: Machine)
    requires Tracks(c, events) && m.now >= c.m.now && (m.rawInput ==> c.m.rawInput)
    ensures Tracks(c.(m := m), events)
  {
    FifoAges(c.events, c.m.now, c.cfg.window, events, m.now - c.m.now);
  }

  lemma {:induction false} ResetTracks(c: Counter)
    requires c.cfg.window > 0 && Accepted(c.cfg)
    ensures Tracks(Counters.Reset(c), []) && Counters.Reset(c).cfg == c.cfg
  {
  }

  lemma {:induction false} StepTracks(c: Counter, events: seq<Event>, op: Op)
    requires Tracks(c, events)
    ensures Tracks(Counters.Step(c, op), Log(events, c.m.now, c.cfg.window, op))
    ensures Counters.Step(c, op).cfg == c.cfg
  {
    match op
    case Delta(delta) => DeltaTracks(c, events, delta);
    case ReadCount => PruneTracks(c, events);
    case ResetCount => ResetTracks(c);
    case Expire => if c.expiry.Some? && c.expiry.value <= c.m.now { ExpireTracks(c, events); }
    case Tick(d) => MachineTracks(c, events, ConditionMachine.Step(c.m, Advance(d)));
    case Inhibited(v) =>
      InhibitLeavesInput(c.m, v);
      MachineTracks(c, events, SetInhibited(c.m, v));
    case Timer(k) =>
      TimersLeaveInput(c.m, k);
      MachineTracks(c, events, FireTimer(c.m, k));
  }

  lemma {:induction false} RunTracks(cfg: Config, b: Behavior, t0: int, ops: seq<Op>)
    requires cfg.window > 0 && Accepted(cfg)
    ensures var c := Run(Started(cfg, b, t0), ops);
            Tracks(c, LogOf(cfg, b, t0, ops)) && c.cfg == cfg
  {
    if ops == [] {
      var c := Counters.New(cfg, b, t0).(m := Boot(b, t0));
      RawSet(c.m, Matched(c));
      assert Started(cfg, b, t0) == Feed(c, Matched(c));
    } else {
      var p := ops[..|ops| - 1];
      RunTracks(cfg, b, t0, p);
      StepTracks(Run(Started(cfg, b, t0), p), LogOf(cfg, b, t0, p), ops[|ops| - 1]);
    }
  }

  // ----- main results -----

  /** Reading the count prunes the FIFO to exactly the events of the log that
      are in the window and not removed, and returns their number; a non-empty
      FIFO has a timer due by the time its head expires. */
  predicate WindowView(c: Counter, events: seq<Event>) {
    var alive := Alive(events, c.m.now - c.cfg.window);
    && Count(c).events == alive && Count(c).count == |alive|
    && c.count == |c.events|
    && (c.events != [] ==> c.expiry.Some? && c.expiry.value <= c.events[0] + c.cfg.window)
  }

  lemma TracksView(c: Counter, events: seq<Event>)
    requires Tracks(c, events)
    ensures WindowView(c, events)
  {
    PruneTracks(c, events);
  }

  /** After any history the counter shows exactly what its log amounts to. */
  lemma {:induction false} WindowRefinement(cfg: Config, b: Behavior, t0: int, ops: seq<Op>)
    requires cfg.window > 0 && Accepted(cfg)
    ensures WindowView(Run(Started(cfg, b, t0), ops), LogOf(cfg, b, t0, ops))
    ensures Run(Started(cfg, b, t0), ops).cfg == cfg
  {
    RunTracks(cfg, b, t0, ops);
    TracksView(Run(Started(cfg, b, t0), ops), LogOf(cfg, b, t0, ops));
  }

  predicate LeftAlone(ops: seq<Op>) {
    forall op :: op in ops ==> !op.Delta? && !op.ResetCount?
  }

  /** Left alone, a counter only forgets. */
  lemma {:induction false} OnlyForgets(c: Counter, events: seq<Event>, ops: seq<Op>)
    requires Tracks(c, events) && LeftAlone(ops)
    ensures var d := Run(c, ops);
            && Tracks(d, events) && d.cfg == c.cfg
            && forall i :: 0 <= i < |d.events| ==> d.events[i] <= c.m.now
  {
    if ops != [] {
      var p := ops[..|ops| - 1];
      OnlyForgets(c, events, p);
      StepTracks(Run(c, p), events, ops[|ops| - 1]);
      Shrinks(Run(c, p), ops[|ops| - 1]);
    }
  }

  lemma Shrinks(c: Counter, op: Op)
    requires !op.Delta? && !op.ResetCount?
    ensures var d := Counters.Step(c, op);
            |d.events| <= |c.events| && d.events == c.events[|c.events| - |d.events|..]
  {
  }

  /** A counter left alone for a whole window, its expiry timer not overdue, is
      empty and, with a positive preset, has fed the machine false. */
  lemma {:induction false} WindowDrains(cfg: Config, b: Behavior, t0: int, ops: seq<Op>, idle: seq<Op>)
    requires cfg.window > 0 && Accepted(cfg) && LeftAlone(idle)
    requires var c := Run(Started(cfg, b, t0), ops);
             var d := Run(c, idle);
             d.m.now >= c.m.now + cfg.window && (d.expiry.Some? ==> d.expiry.value > d.m.now)
    ensures var d := Run(Run(Started(cfg, b, t0), ops), idle);
            && d.events == [] && d.count == 0
            && (cfg.preset > 0 ==> !d.m.rawInput)
  {
    RunTracks(cfg, b, t0, ops);
    OnlyForgets(Run(Started(cfg, b, t0), ops), LogOf(cfg, b, t0, ops), idle);
  }

  // ----- the verdict the machine is told -----

  /** What a counter shows right after it has told its machine. */
  predicate Told(n: Counter, alive: seq<int>) {
    && n.events == alive && n.count == |alive|
    && (n.m.rawInput <==> |alive| >= n.cfg.preset)
    && n.expiry == if alive == [] then None else Some(alive[0] + n.cfg.window)
  }

  lemma {:induction false} ArmTells(c: Counter, events: seq<Event>)
    requires c.cfg.window > 0 && Accepted(c.cfg) && c.count == |c.events|
    requires Pruned(c.events, c.m.now, c.cfg.window, events)
    ensures var a := ArmExpiry(c);
            Told(Feed(a, Matched(a)), Alive(events, c.m.now - c.cfg.window))
  {
    RawSet(c.m, true);
    RawSet(c.m, false);
  }

  lemma {:induction false} DeltaTells(c: Counter, events: seq<Event>, delta: int)
    requires Tracks(c, events)
    ensures var log := Log(events, c.m.now, c.cfg.window, Delta(delta));
            Told(ApplyDelta(c, delta), Alive(log, c.m.now - c.cfg.window))
  {
    PruneTracks(c, events);
    var q := Shifted(Prune(c).events, c.m.now, delta);
    FifoShifts(Prune(c).events, c.m.now, c.cfg.window, events, delta);
    ArmTells(Prune(c).(events := q, count := |q|), Log(events, c.m.now, c.cfg.window, Delta(delta)));
  }

  lemma {:induction false} ExpireTells(c: Counter, events: seq<Event>)
    requires Tracks(c, events)
    ensures Told(OnWindowExpire(c), Alive(events, c.m.now - c.cfg.window))
  {
    PruneTracks(c, events);
    PruneMeans(c);
    PruneMeans(c.(expiry := None));
    assert Prune(c.(expiry := None)) == Prune(c).(expiry := None);
    ArmTells(Prune(c).(expiry := None), events);
  }

  /** In every run, a count, and an expiry that was due, leave the machine's input
      asserted exactly when the log holds at least `preset` events within the
      window, and the timer set for exactly when the oldest of them expires. */
  lemma {:induction false} WindowTellsVerdict(
    cfg: Config, b: Behavior, t0: int, ops: seq<Op>, op: Op, c: Counter, events: seq<Event>)
    requires cfg.window > 0 && Accepted(cfg)
    requires c == Run(Started(cfg, b, t0), ops) && events == LogOf(cfg, b, t0, ops) && Tells(c, op)
    ensures ToldAfter(c, events, op)
  {
    RunTracks(cfg, b, t0, ops);
    StepTells(c, events, op);
  }

  predicate Tells(c: Counter, op: Op) {
    op.Delta? || (op.Expire? && c.expiry.Some? && c.expiry.value <= c.m.now)
  }

  /** `op` leaves the counter `c`, whose log was `events`, as the log then says. */
  predicate ToldAfter(c: Counter, events: seq<Event>, op: Op) {
    var log := Log(events, c.m.now, c.cfg.window, op);
    Told(Counters.Step(c, op), Alive(log, c.m.now - c.cfg.window))
  }

  lemma {:induction false} StepTells(c: Counter, events: seq<Event>, op: Op)
    requires Tracks(c, events) && Tells(c, op)
    ensures ToldAfter(c, events, op)
  {
    match op
    case Delta(delta) => DeltaTells(c, events, delta);
    case Expire => ExpireTells(c, events);
  }
}
