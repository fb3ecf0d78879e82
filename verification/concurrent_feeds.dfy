/** Front ends decide under their own lock and tell the machine after releasing
    it, so with several callers the machine may hear their values in any order.
    Here a decision and its delivery are separate steps, and what the machine is
    left with is decided by the values in flight. */
module ConcurrentFeeds {
  import opened ConditionMachine
  import opened MachineInput
  import opened Counters
  import CounterSaturation
  import Timers

  // ----- values in flight -----

  /** The machine after the values arrive in the order given. */
  function Deliver(m: Machine, order: seq<bool>): Machine {
    if order == [] then m else SetRawInput(Deliver(m, order[..|order| - 1]), order[|order| - 1])
  }

  /** Whatever the order, the machine ends up with `v`. */
  ghost predicate SettlesAt(m: Machine, inflight: seq<bool>, v: bool) {
    forall order :: multiset(order) == multiset(inflight) ==> Deliver(m, order).rawInput == v
  }

  predicate AllAre(values: seq<bool>, v: bool) {
    forall i :: 0 <= i < |values| ==> values[i] == v
  }

  lemma LastWins(m: Machine, order: seq<bool>)
    requires order != []
    ensures Deliver(m, order).rawInput == order[|order| - 1]
  {
    RawSet(Deliver(m, order[..|order| - 1]), order[|order| - 1]);
  }

  /** With values in flight, that is the case exactly when they are all `v`. */
  lemma SettlesIff(m: Machine, inflight: seq<bool>, v: bool)
    ensures SettlesAt(m, inflight, v) <==> if inflight == [] then m.rawInput == v else AllAre(inflight, v)
  {
    if inflight == [] {
      NoneInFlight(m, v);
    } else if AllAre(inflight, v) {
      forall order | multiset(order) == multiset(inflight) ensures Deliver(m, order).rawInput == v {
        AllSettle(m, inflight, v, order);
      }
    } else {
      var i :| 0 <= i < |inflight| && inflight[i] != v;
      var order := OvertakenBy(m, inflight, i);
    }
  }

  lemma AllSettle(m: Machine, inflight: seq<bool>, v: bool, order: seq<bool>)
    requires inflight != [] && AllAre(inflight, v) && multiset(order) == multiset(inflight)
    ensures Deliver(m, order).rawInput == v
  {
    assert |order| == |multiset(order)| == |inflight|;
    LastWins(m, order);
    assert order[|order| - 1] in multiset(order);
  }

  /** Any value in flight may be the last to arrive. */
  lemma OvertakenBy(m: Machine, inflight: seq<bool>, i: nat) returns (order: seq<bool>)
    requires i < |inflight|
    ensures multiset(order) == multiset(inflight) && Deliver(m, order).rawInput == inflight[i]
  {
    order := inflight[..i] + inflight[i + 1..] + [inflight[i]];
    assert inflight == inflight[..i] + [inflight[i]] + inflight[i + 1..];
    LastWins(m, order);
  }

  lemma NoneInFlight(m: Machine, v: bool)
    ensures SettlesAt(m, [], v) <==> m.rawInput == v
  {
    var none: seq<bool> := [];
    if m.rawInput == v {
      forall order: seq<bool> | multiset(order) == multiset(none) ensures Deliver(m, order).rawInput == v {
        assert |order| == |multiset(order)| == 0;
      }
    } else {
      assert Deliver(m, none).rawInput != v;
    }
  }

  // ----- callers of one counter -----

  datatype Racing = Racing(c: Counter, inflight: seq<bool>)

  datatype Action =
    | Decide(delta: int)      // a caller changes the count and compares it
    | Land(i: nat)            // a caller tells the machine what it found
    | Elsewhere(l: Label)     // the machine's own clock, timers and gate

  /** The counter's own critical section. */
  function Tally(c: Counter, delta: int): Counter {
    var sum := c.count + delta;
    c.(count := if sum < 0 then 0 else sum)
  }

  function Act(r: Racing, a: Action): Racing {
    match a
    case Decide(delta) => Racing(Tally(r.c, delta), r.inflight + [Matched(Tally(r.c, delta))])
    case Land(i) =>
      if i >= |r.inflight| then r
      else Racing(r.c.(m := SetRawInput(r.c.m, r.inflight[i])), r.inflight[..i] + r.inflight[i + 1..])
    case Elsewhere(l) =>
      if l.Raw? || l.Reset? then r else Racing(r.c.(m := ConditionMachine.Step(r.c.m, l)), r.inflight)
  }

  function ActAll(r: Racing, acts: seq<Action>): Racing {
    if acts == [] then r else Act(ActAll(r, acts[..|acts| - 1]), acts[|acts| - 1])
  }

  /** A call nobody overtakes is the counting step. */
  lemma AloneIsSequential(c: Counter, delta: int)
    requires CounterSaturation.Straight(c.cfg)
    ensures Act(Act(Racing(c, []), Decide(delta)), Land(0)) == Racing(ApplyDelta(c, delta), [])
  {
    var d := Act(Racing(c, []), Decide(delta));
    assert d.inflight == [Matched(Tally(c, delta))];
  }

  /** With `r.inflight` on its way from other callers, the machine is sure to
      end up with the verdict a caller reaches exactly when they carry it too. */
  lemma DecideSettlesIff(r: Racing, delta: int)
    ensures var n := Act(r, Decide(delta));
            SettlesAt(n.c.m, n.inflight, Matched(n.c)) <==> AllAre(r.inflight, Matched(n.c))
  {
    var n := Act(r, Decide(delta));
    SettlesIff(n.c.m, n.inflight, Matched(n.c));
    if AllAre(n.inflight, Matched(n.c)) {
      assert forall i :: 0 <= i < |r.inflight| ==> n.inflight[i] == r.inflight[i];
    }
  }

  predicate InOrder(acts: seq<Action>) {
    forall i :: 0 <= i < |acts| && acts[i].Land? ==> acts[i].i == 0
  }

  /** The newest value, delivered or not. */
  function Newest(r: Racing): bool {
    if r.inflight == [] then r.c.m.rawInput else r.inflight[|r.inflight| - 1]
  }

  predicate Orderly(r: Racing) {
    NoTimeout(r.c.m) && Newest(r) == Matched(r.c)
  }

  lemma ActStaysOrderly(r: Racing, a: Action)
    requires Orderly(r) && (a.Land? ==> a.i == 0)
    ensures Orderly(Act(r, a))
  {
    match a
    case Decide(_) =>
    case Land(i) => if i < |r.inflight| { RawKeepsNoTimeout(r.c.m, r.inflight[i]); }
    case Elsewhere(l) =>
      match l {
        case Inhibit(v) => OtherKeepsNoTimeout(r.c.m, v);
        case Fire(k) => FireKeepsNoTimeout(r.c.m, k);
        case _ =>
      }
  }

  /** Callers that reach the machine in the order they counted leave it, without
      a timeout, with the verdict on the count whenever none is on its way. */
  lemma {:induction false} InOrderAgrees(cfg: Config, b: Behavior, t0: int, acts: seq<Action>)
    requires CounterSaturation.Straight(cfg) && b.timeout <= 0 && InOrder(acts)
    ensures var r := ActAll(Racing(Started(cfg, b, t0), []), acts);
            Orderly(r) && (r.inflight == [] ==> r.c.m.rawInput == Matched(r.c))
  {
    if acts == [] {
      CounterSaturation.RunFollows(cfg, b, t0, []);
    } else {
      InOrderAgrees(cfg, b, t0, acts[..|acts| - 1]);
      ActStaysOrderly(ActAll(Racing(Started(cfg, b, t0), []), acts[..|acts| - 1]), acts[|acts| - 1]);
    }
  }

  /** Two callers, one counting up to the preset and one back down, overtaking
      each other on the way: the input stays asserted with the count at 0. */
  lemma OvertakingDisagrees(c: Counter)
    requires c.cfg == Config(0, 1, false, false, 0) && c.count == 0 && !c.m.rawInput
    ensures var r := Act(Act(Act(Act(Racing(c, []), Decide(1)), Decide(-1)), Land(1)), Land(0));
            r.inflight == [] && r.c.count == 0 && r.c.m.rawInput && !Matched(r.c)
  {
    var r2 := Act(Act(Racing(c, []), Decide(1)), Decide(-1));
    assert r2.inflight == [true, false];
    var r3 := Act(r2, Land(1));
    assert r3.inflight == [true] && r3.c == r2.c;
    RawSet(r3.c.m, true);
  }

  // ----- callers of one timer, without debounce -----

  /** The timer's own critical section: its new state, and what it will tell
      the machine, if anything. */
  function Decided(d: Timers.Debouncer, value: bool): (Timers.Debouncer, seq<bool>) {
    var r := Timers.Reconcile(d).(rawInput := value);
    if value == r.stableInput then (r, []) else (r.(stableInput := value), [value])
  }

  /** A call nobody overtakes is the submission step. */
  lemma AloneSubmits(d: Timers.Debouncer, value: bool)
    requires d.interval <= 0
    ensures var (n, fed) := Decided(d, value);
            Timers.Submit(d, value) == n.(m := Deliver(n.m, fed))
  {
    assert [value][..0] == [];
  }

  /** With `inflight` on its way from other callers, the machine is sure to end
      up with a submitted value exactly when they all carry it too. */
  lemma SubmitSettlesIff(d: Timers.Debouncer, inflight: seq<bool>, value: bool)
    ensures var (n, fed) := Decided(d, value);
            SettlesAt(n.m, inflight + fed, value) <==> AllAre(inflight, value)
  {
    var (n, fed) := Decided(d, value);
    SettlesIff(n.m, inflight + fed, value);
    if AllAre(inflight + fed, value) {
      assert forall i :: 0 <= i < |inflight| ==> (inflight + fed)[i] == inflight[i];
    }
  }

  /** A submit of true on its way makes a submit of false tell the machine
      nothing; the true then arrives last, although nobody overtook. */
  lemma LostSubmit(d: Timers.Debouncer)
    requires !d.m.rawInput && !d.stableInput
    ensures var (first, feeds) := Decided(d, true);
            var (second, none) := Decided(first, false);
            feeds == [true] && none == [] && Deliver(second.m, feeds).rawInput
  {
    assert [true][..0] == [];
    RawSet(d.m, true);
  }
}
