/** A windowed count reads the clock before it takes the counter's lock, so a
    caller may count with a reading that is out of date and out of order. Here
    the reading is a parameter of the step. Pruning filters by age exactly while
    the readings in the FIFO ascend, and the expiry timer overshoots by the
    reading's age. */
module StaleClock {
  import opened Options
  import opened ConditionMachine
  import opened Counters
  import opened SlidingWindow

  // ----- counting with a reading of the clock -----

  function PruneAt(c: Counter, at: int): Counter {
    var drop := Expired(c.events, at - c.cfg.window);
    if c.cfg.window <= 0 || drop == 0 then c
    else c.(events := c.events[drop..], count := |c.events| - drop)
  }

  /** The delay is computed from the reading and runs from the present. */
  function ArmAt(c: Counter, at: int): Counter {
    c.(expiry := if c.events == [] then None
                 else
                   var delay := c.events[0] + c.cfg.window - at;
                   Some(c.m.now + if delay < 0 then 0 else delay))
  }

  function StaleDelta(c: Counter, at: int, delta: int): Counter {
    var events := Shifted(PruneAt(c, at).events, at, delta);
    var a := ArmAt(PruneAt(c, at).(events := events, count := |events|), at);
    Feed(a, Matched(a))
  }

  function StaleExpire(c: Counter, at: int): Counter {
    var a := ArmAt(PruneAt(c.(expiry := None), at), at);
    Feed(a, Matched(a))
  }

  /** With a current reading these are the steps of every other result. */
  lemma CurrentReading(c: Counter, delta: int)
    requires c.cfg.window > 0
    ensures StaleDelta(c, c.m.now, delta) == ApplyWindowedDelta(c, delta)
    ensures StaleExpire(c, c.m.now) == OnWindowExpire(c)
  {
    SamePrune(c);
    SamePrune(c.(expiry := None));
    var events := Shifted(Prune(c).events, c.m.now, delta);
    SameArm(Prune(c).(events := events, count := |events|));
    SameArm(Prune(c.(expiry := None)));
  }

  lemma SamePrune(c: Counter)
    ensures PruneAt(c, c.m.now) == Prune(c) && Prune(c).m == c.m
  {
  }

  lemma SameArm(c: Counter)
    ensures ArmAt(c, c.m.now) == ArmExpiry(c)
  {
  }

  // ----- pruning a FIFO that may be out of order -----

  predicate Ascending(s: seq<int>) {
    forall i, j :: 0 <= i < j < |s| ==> s[i] <= s[j]
  }

  /** No expired event stands behind a live one. */
  predicate ExpiredInFront(s: seq<int>, cutoff: int) {
    forall i, j :: 0 <= i < j < |s| && s[i] > cutoff ==> s[j] > cutoff
  }

  lemma {:induction false} PrefixIsExpired(s: seq<int>, cutoff: int)
    ensures var n := Expired(s, cutoff);
            (forall i :: 0 <= i < n ==> s[i] <= cutoff) && (n < |s| ==> s[n] > cutoff)
  {
    if s != [] && s[0] <= cutoff {
      PrefixIsExpired(s[1..], cutoff);
      assert forall i :: 1 <= i < |s| ==> s[i] == s[1..][i - 1];
    }
  }

  lemma {:induction false} FreshIsLive(s: seq<int>, cutoff: int)
    ensures forall i :: 0 <= i < |Fresh(s, cutoff)| ==> Fresh(s, cutoff)[i] > cutoff
  {
    if s != [] {
      FreshIsLive(s[..|s| - 1], cutoff);
    }
  }

  /** Dropping the expired prefix filters by age exactly when no expired event
      stands behind a live one. */
  lemma {:induction false} DropIsFilterIff(s: seq<int>, cutoff: int)
    ensures s[Expired(s, cutoff)..] == Fresh(s, cutoff) <==> ExpiredInFront(s, cutoff)
  {
    if ExpiredInFront(s, cutoff) {
      FrontFilters(s, cutoff);
    } else {
      var i, j :| 0 <= i < j < |s| && s[i] > cutoff && s[j] <= cutoff;
      BehindStays(s, cutoff, i, j);
    }
  }

  lemma {:induction false} FrontFilters(s: seq<int>, cutoff: int)
    requires ExpiredInFront(s, cutoff)
    ensures s[Expired(s, cutoff)..] == Fresh(s, cutoff)
  {
    var n := Expired(s, cutoff);
    PrefixIsExpired(s, cutoff);
    assert forall i :: n <= i < |s| ==> s[i] > cutoff;
    FreshSplit(s[..n], s[n..], cutoff);
    assert s == s[..n] + s[n..];
  }

  lemma {:induction false} BehindStays(s: seq<int>, cutoff: int, i: nat, j: nat)
    requires i < j < |s| && s[i] > cutoff && s[j] <= cutoff
    ensures s[Expired(s, cutoff)..] != Fresh(s, cutoff)
  {
    var n := Expired(s, cutoff);
    PrefixIsExpired(s, cutoff);
    FreshIsLive(s, cutoff);
    assert n <= i;
    assert s[n..][j - n] == s[j];
  }

  /** It does so for every age exactly when the readings ascend. */
  lemma {:induction false} AlwaysFiltersIff(s: seq<int>)
    ensures (forall cutoff: int :: ExpiredInFront(s, cutoff)) <==> Ascending(s)
  {
    if i, j :| 0 <= i < j < |s| && s[i] > s[j] {
      assert !ExpiredInFront(s, s[j]);
    }
  }

  /** A count keeps the readings ascending exactly when its own is no older than
      the newest one left. */
  lemma {:induction false} StaysAscendingIff(c: Counter, at: int, delta: int)
    requires Ascending(c.events) && delta > 0
    ensures var q := PruneAt(c, at).events;
            Ascending(StaleDelta(c, at, delta).events) <==> q == [] || q[|q| - 1] <= at
  {
    var q := PruneAt(c, at).events;
    assert Ascending(q);
    var s := q + Repeat(at, delta);
    assert StaleDelta(c, at, delta).events == s;
    if q != [] {
      assert s[|q| - 1] == q[|q| - 1] && s[|q|] == at;
    }
  }

  /** The expiry timer comes later than the head's expiry by exactly the age of
      the reading, or at once if the head had expired by the reading. */
  lemma {:induction false} OvershootsByAge(c: Counter, at: int, delta: int)
    requires at <= c.m.now && StaleDelta(c, at, delta).events != []
    ensures var n := StaleDelta(c, at, delta);
            var due := n.events[0] + c.cfg.window;
            n.expiry == Some(if due < at then c.m.now else due + (c.m.now - at))
  {
  }

  /** Callers that read 5 and 10 and lock in the other order leave an event that
      the window of 10 should have dropped by 16. */
  lemma OvertakenReading(b: Behavior)
    ensures var c := Counter(Config(0, 2, false, false, 10), ConditionMachine.New(b, 10), 0, [], None);
            var n := StaleDelta(StaleDelta(c, 10, 1), 5, 1);
            var later := n.(m := n.m.(now := 16));
            n.events == [10, 5] && Count(later).count == 2 && Fresh(n.events, 16 - 10) == [10]
  {
    var c := Counter(Config(0, 2, false, false, 10), ConditionMachine.New(b, 10), 0, [], None);
    assert Repeat(10, 1) == [10] && Repeat(5, 1) == [5];
    var one := StaleDelta(c, 10, 1);
    assert one.events == [10] && one.cfg == c.cfg;
    assert [10] + [5] == [10, 5] && [10, 5][..1] == [10] && [10][..0] == [];
    assert Fresh([10], 6) == [10];
  }

  // ----- whole runs with readings in order -----

  /** What happens to a counter whose callers carry readings. In between, its
      machine may have become any machine at any time. */
  datatype StaleOp =
    | Change(at: int, delta: int)
    | Expiry(at: int)
    | Look(at: int)
    | Meanwhile(m: Machine)

  function StaleStep(c: Counter, op: StaleOp): Counter {
    match op
    case Change(at, delta) => StaleDelta(c, at, delta)
    case Expiry(at) => StaleExpire(c, at)
    case Look(at) => if c.events != [] then PruneAt(c, at) else c
    case Meanwhile(m) => c.(m := m)
  }

  function StaleRun(c: Counter, ops: seq<StaleOp>): Counter {
    if ops == [] then c else StaleStep(StaleRun(c, ops[..|ops| - 1]), ops[|ops| - 1])
  }

  function LastReading(t0: int, ops: seq<StaleOp>): int {
    if ops == [] then t0
    else if ops[|ops| - 1].Meanwhile? then LastReading(t0, ops[..|ops| - 1])
    else ops[|ops| - 1].at
  }

  /** Each caller's reading is no older than those that took the lock before. */
  predicate ReadingsAscend(t0: int, ops: seq<StaleOp>) {
    forall i :: 0 <= i < |ops| && !ops[i].Meanwhile? ==> LastReading(t0, ops[..i]) <= ops[i].at
  }

  /** The log of what was counted, dated by the readings. */
  function StaleLog(w: int, ops: seq<StaleOp>): seq<Event> {
    if ops == [] then []
    else
      var log := StaleLog(w, ops[..|ops| - 1]);
      var op := ops[|ops| - 1];
      if op.Change? then Log(log, op.at, w, Delta(op.delta)) else log
  }

  /** The counter tracks the log as of the last reading. */
  predicate Holds(c: Counter, w: int, last: int, log: seq<Event>) {
    c.cfg.window == w > 0 && Fifo(c.events, last, w, log) && c.count == |c.events|
  }

  lemma PruneAtMeans(c: Counter, at: int)
    requires c.cfg.window > 0 && c.count == |c.events|
    ensures var q := c.events[Expired(c.events, at - c.cfg.window)..];
            PruneAt(c, at) == c.(events := q, count := |q|)
  {
  }

  lemma {:induction false} PruneHolds(c: Counter, w: int, last: int, log: seq<Event>, at: int)
    requires Holds(c, w, last, log) && last <= at
    ensures var n := PruneAt(c, at);
            Pruned(n.events, at, w, log) && n.count == |n.events| && n.cfg == c.cfg && Holds(n, w, at, log)
  {
    PruneAtMeans(c, at);
    FifoAges(c.events, last, w, log, at - last);
    FifoPrunes(c.events, at, w, log);
    PrunedIsFifo(PruneAt(c, at).events, at, w, log);
  }

  lemma {:induction false} StepHolds(c: Counter, w: int, last: int, log: seq<Event>, op: StaleOp)
    requires Holds(c, w, last, log) && !op.Meanwhile? && last <= op.at
    ensures Holds(StaleStep(c, op), w, op.at, if op.Change? then Log(log, op.at, w, Delta(op.delta)) else log)
  {
    PruneHolds(c, w, last, log, op.at);
    match op
    case Change(at, delta) =>
      var q := PruneAt(c, at).events;
      FifoShifts(q, at, w, log, delta);
      PrunedIsFifo(Shifted(q, at, delta), at, w, Log(log, at, w, Delta(delta)));
    case Expiry(at) => PruneHolds(c.(expiry := None), w, last, log, at);
    case Look(_) =>
  }

  lemma {:induction false} StaleRunHolds(c: Counter, t0: int, ops: seq<StaleOp>)
    requires c.cfg.window > 0 && c.events == [] && c.count == 0 && ReadingsAscend(t0, ops)
    ensures Holds(StaleRun(c, ops), c.cfg.window, LastReading(t0, ops), StaleLog(c.cfg.window, ops))
  {
    if ops != [] {
      var p, op := ops[..|ops| - 1], ops[|ops| - 1];
      assert forall i :: 0 <= i < |p| ==> p[..i] == ops[..i];
      StaleRunHolds(c, t0, p);
      if !op.Meanwhile? {
        StepHolds(StaleRun(c, p), c.cfg.window, LastReading(t0, p), StaleLog(c.cfg.window, p), op);
      }
    }
  }

  /** With readings in order, however old they are, the window refines its log:
      a look at any later time finds exactly the events of the log, dated by
      their readings, that are young enough and not removed. */
  lemma {:induction false} InOrderReadingsRefine(c: Counter, t0: int, ops: seq<StaleOp>, now: int)
    requires c.cfg.window > 0 && c.events == [] && c.count == 0
    requires ReadingsAscend(t0, ops) && LastReading(t0, ops) <= now
    ensures var view := StaleStep(StaleRun(c, ops), Look(now));
            var alive := Alive(StaleLog(c.cfg.window, ops), now - c.cfg.window);
            view.events == alive && view.count == |alive|
  {
    StaleRunHolds(c, t0, ops);
    PruneHolds(StaleRun(c, ops), c.cfg.window, LastReading(t0, ops), StaleLog(c.cfg.window, ops), now);
  }
}
