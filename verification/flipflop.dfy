/** The flipflop condition: edge-detected wires, an optional gate and a sampled
    input, resolved to one desired output. A notification re-evaluates only the
    wires its source feeds and otherwise trusts cached baselines and the cached
    gate level; it is proved to act as if every wire were compared, each time,
    with the whole history of its values. */
module Flipflops {
  import opened Options
  import opened ConditionMachine
  import opened MachineInput

  datatype Mode = Rising | Falling | Both | High | Low

  predicate IsLevel(m: Mode) {
    m.High? || m.Low?
  }

  predicate EdgeFired(prev: bool, cur: bool, mode: Mode) {
    match mode
    case Rising => !prev && cur
    case Falling => prev && !cur
    case Both => prev != cur
    case _ => false
  }

  /** Whether a level gate asserts at value `v`. */
  predicate Asserts(mode: Mode, v: bool) {
    if mode.Low? then !v else v
  }

  datatype Wire = Wire(mode: Mode, prev: bool, hasPrev: bool)

  /** What the expressions evaluate to; `None` is not a boolean. */
  datatype Levels = Levels(
    setOn: Option<bool>, resetOn: Option<bool>, toggleOn: Option<bool>, gateOn: Option<bool>, setFrom: Option<bool>)

  /** Which expressions a source feeds. */
  datatype Feeds = Feeds(setOn: bool, resetOn: bool, toggleOn: bool, gateOn: bool, setFrom: bool)

  datatype Flipflop = Flipflop(
    setWire: Option<Wire>, resetWire: Option<Wire>, toggleWire: Option<Wire>, gateWire: Option<Wire>,
    hasSetFrom: bool, dominantSet: bool,
    desired: bool, gateAsserting: bool, m: Machine)

  // ----- one notification -----

  /** Re-evaluates a wire: its new baseline, and whether its edge fired. */
  function Rebase(w: Option<Wire>, cur: Option<bool>): Option<Wire> {
    if w.Some? && cur.Some? then Some(w.value.(prev := cur.value, hasPrev := true)) else w
  }

  predicate FiredFor(w: Option<Wire>, cur: Option<bool>) {
    w.Some? && cur.Some? && w.value.hasPrev && EdgeFired(w.value.prev, cur.value, w.value.mode)
  }

  /** What one notification sees. */
  datatype Window = Window(gateAsserting: bool, open: bool, sample: bool)

  function GateWindow(f: Flipflop, s: Feeds, env: Levels): Window {
    if f.gateWire.None? then Window(f.gateAsserting, true, false)
    else
      var w := f.gateWire.value;
      var seen := s.gateOn && env.gateOn.Some?;
      if IsLevel(w.mode) then
        var asserting := if seen then Asserts(w.mode, env.gateOn.value) else f.gateAsserting;
        var just := seen && w.hasPrev && asserting && !Asserts(w.mode, w.prev);
        Window(asserting, asserting, asserting && (s.setFrom || just))
      else
        var fired := seen && FiredFor(f.gateWire, env.gateOn);
        Window(f.gateAsserting, fired, fired)
  }

  /** Set and reset dominance, then toggle. */
  function Resolve(desired: bool, dominantSet: bool, setFired: bool, resetFired: bool, toggleFired: bool): bool {
    if setFired && resetFired then dominantSet
    else if setFired then true
    else if resetFired then false
    else if toggleFired then !desired
    else desired
  }

  /** The desired output after the level input has been sampled, if it is. */
  function Sampled(f: Flipflop, s: Feeds, env: Levels): bool {
    if f.hasSetFrom && GateWindow(f, s, env).sample && env.setFrom.Some? then env.setFrom.value else f.desired
  }

  /** The desired output a notification resolves to. */
  function NewDesired(f: Flipflop, s: Feeds, env: Levels): bool {
    var g := GateWindow(f, s, env);
    Resolve(Sampled(f, s, env), f.dominantSet,
            g.open && s.setOn && FiredFor(f.setWire, env.setOn),
            g.open && s.resetOn && FiredFor(f.resetWire, env.resetOn),
            g.open && s.toggleOn && FiredFor(f.toggleWire, env.toggleOn))
  }

  /** The baselines a notification leaves behind. */
  function Rebased(f: Flipflop, s: Feeds, env: Levels): Flipflop {
    f.(gateAsserting := GateWindow(f, s, env).gateAsserting,
       gateWire := if s.gateOn then Rebase(f.gateWire, env.gateOn) else f.gateWire,
       setWire := if s.setOn then Rebase(f.setWire, env.setOn) else f.setWire,
       resetWire := if s.resetOn then Rebase(f.resetWire, env.resetOn) else f.resetWire,
       toggleWire := if s.toggleOn then Rebase(f.toggleWire, env.toggleOn) else f.toggleWire)
  }

  function Reconcile(f: Flipflop): Flipflop {
    f.(desired := f.m.rawInput)
  }

  function OnSourceChanged(f: Flipflop, s: Feeds, env: Levels): Flipflop {
    var r := Reconcile(f);
    var newDesired := NewDesired(r, s, env);
    var n := Rebased(r, s, env);
    if newDesired == r.desired then n else n.(desired := newDesired, m := SetRawInput(n.m, newDesired))
  }

  function SetTo(f: Flipflop, v: bool): Flipflop {
    f.(desired := v, m := SetRawInput(f.m, v))
  }

  function Toggle(f: Flipflop): Flipflop {
    SetTo(f, !f.m.rawInput)
  }

  function ClearAll(f: Flipflop): Flipflop {
    f.(desired := false, m := Clear(f.m))
  }

  /** Establishes every baseline without firing an edge. */
  function Start(f: Flipflop, env: Levels): Flipflop {
    f.(m := Bootstrap(f.m),
       desired := f.desired || f.m.b.startActive,
       setWire := Rebase(f.setWire, env.setOn),
       resetWire := Rebase(f.resetWire, env.resetOn),
       toggleWire := Rebase(f.toggleWire, env.toggleOn),
       gateWire := Rebase(f.gateWire, env.gateOn),
       gateAsserting := if f.gateWire.Some? && env.gateOn.Some? && IsLevel(f.gateWire.value.mode)
                        then Asserts(f.gateWire.value.mode, env.gateOn.value) else f.gateAsserting)
  }

  // ----- the reference: compare with all of history -----

  /** The declared wires. */
  datatype Wiring = Wiring(
    setOn: Option<Mode>, resetOn: Option<Mode>, toggleOn: Option<Mode>, gateOn: Option<Mode>,
    hasSetFrom: bool, dominantSet: bool)

  function Later(before: Option<bool>, cur: Option<bool>): Option<bool> {
    if cur.Some? then cur else before
  }

  /** The last boolean each expression has shown. */
  function Seen(history: seq<Levels>): Levels {
    if history == [] then Levels(None, None, None, None, None)
    else
      var s := Seen(history[..|history| - 1]);
      var e := history[|history| - 1];
      Levels(Later(s.setOn, e.setOn), Later(s.resetOn, e.resetOn), Later(s.toggleOn, e.toggleOn),
             Later(s.gateOn, e.gateOn), Later(s.setFrom, e.setFrom))
  }

  predicate RefFired(mode: Option<Mode>, last: Option<bool>, cur: Option<bool>) {
    mode.Some? && last.Some? && cur.Some? && EdgeFired(last.value, cur.value, mode.value)
  }

  /** Whether the gate lets events through, from the history alone. */
  predicate RefOpen(w: Wiring, last: Option<bool>, cur: Option<bool>) {
    if w.gateOn.None? then true
    else if IsLevel(w.gateOn.value) then
      Later(last, cur).Some? && Asserts(w.gateOn.value, Later(last, cur).value)
    else RefFired(w.gateOn, last, cur)
  }

  predicate RefSample(w: Wiring, last: Option<bool>, cur: Option<bool>, setFromNotified: bool) {
    if w.gateOn.None? then false
    else if IsLevel(w.gateOn.value) then
      && RefOpen(w, last, cur)
      && (setFromNotified || (last.Some? && !Asserts(w.gateOn.value, last.value)))
    else RefFired(w.gateOn, last, cur)
  }

  /** The desired output after levels `env` follow `history`, every wire
      re-evaluated. */
  function RefDesired(w: Wiring, history: seq<Levels>, env: Levels, setFromNotified: bool, desired: bool): bool {
    var last := Seen(history);
    var open := RefOpen(w, last.gateOn, env.gateOn);
    var sampled := if w.hasSetFrom && RefSample(w, last.gateOn, env.gateOn, setFromNotified) && env.setFrom.Some?
                   then env.setFrom.value else desired;
    Resolve(sampled, w.dominantSet,
            open && RefFired(w.setOn, last.setOn, env.setOn),
            open && RefFired(w.resetOn, last.resetOn, env.resetOn),
            open && RefFired(w.toggleOn, last.toggleOn, env.toggleOn))
  }

  // ----- runs -----

  datatype Op =
    | Notify(s: Feeds, env: Levels)
    | SetOp(value: bool)
    | ToggleOp
    | ClearOp
    | Tick(d: nat)
    | Inhibited(inhibit: bool)
    | Timer(k: Kind)

  function Step(f: Flipflop, op: Op): Flipflop {
    match op
    case Notify(s, env) => OnSourceChanged(f, s, env)
    case SetOp(v) => SetTo(f, v)
    case ToggleOp => Toggle(f)
    case ClearOp => ClearAll(f)
    case Tick(d) => f.(m := ConditionMachine.Step(f.m, Advance(d)))
    case Inhibited(v) => f.(m := SetInhibited(f.m, v))
    case Timer(k) => f.(m := FireTimer(f.m, k))
  }

  function Run(f: Flipflop, ops: seq<Op>): Flipflop {
    if ops == [] then f else Step(Run(f, ops[..|ops| - 1]), ops[|ops| - 1])
  }

  /** The levels at the start and at each notification. */
  function History(start: Levels, ops: seq<Op>): seq<Levels> {
    if ops == [] then [start]
    else
      var h := History(start, ops[..|ops| - 1]);
      if ops[|ops| - 1].Notify? then h + [ops[|ops| - 1].env] else h
  }

  /** What an operation makes of the desired output, given the history. */
  function RefNext(w: Wiring, history: seq<Levels>, op: Op, desired: bool): bool {
    match op
    case Notify(s, env) => RefDesired(w, history, env, s.setFrom, desired)
    case SetOp(v) => v
    case ToggleOp => !desired
    case ClearOp => false
    case _ => desired
  }

  /** The reference run: only the desired output and the history. */
  function RefRun(w: Wiring, startActive: bool, start: Levels, ops: seq<Op>): bool {
    if ops == [] then startActive
    else
      var p := ops[..|ops| - 1];
      RefNext(w, History(start, p), ops[|ops| - 1], RefRun(w, startActive, start, p))
  }

  predicate OnlyFed(s: Feeds, before: Levels, env: Levels) {
    && (!s.setOn ==> env.setOn == before.setOn)
    && (!s.resetOn ==> env.resetOn == before.resetOn)
    && (!s.toggleOn ==> env.toggleOn == before.toggleOn)
    && (!s.gateOn ==> env.gateOn == before.gateOn)
  }

  /** At every notification only what the notifying source feeds has changed. */
  predicate SourcesNotify(start: Levels, ops: seq<Op>) {
    ops == [] ||
    (var p := ops[..|ops| - 1];
     var h := History(start, p);
     SourcesNotify(start, p) &&
     (ops[|ops| - 1].Notify? ==> h != [] && OnlyFed(ops[|ops| - 1].s, h[|h| - 1], ops[|ops| - 1].env)))
  }

  // ----- the caches are right -----

  predicate WireKnows(w: Option<Wire>, mode: Option<Mode>, seen: Option<bool>) {
    && (w.Some? <==> mode.Some?)
    && (w.Some? ==>
          && w.value.mode == mode.value
          && (w.value.hasPrev <==> seen.Some?)
          && (seen.Some? ==> w.value.prev == seen.value))
  }

  predicate GateKnows(asserting: bool, mode: Option<Mode>, seen: Option<bool>) {
    mode.Some? && IsLevel(mode.value) ==> asserting == (seen.Some? && Asserts(mode.value, seen.value))
  }

  predicate Knows(f: Flipflop, w: Wiring, seen: Levels) {
    && WireKnows(f.setWire, w.setOn, seen.setOn)
    && WireKnows(f.resetWire, w.resetOn, seen.resetOn)
    && WireKnows(f.toggleWire, w.toggleOn, seen.toggleOn)
    && WireKnows(f.gateWire, w.gateOn, seen.gateOn)
    && GateKnows(f.gateAsserting, w.gateOn, seen.gateOn)
    && f.hasSetFrom == w.hasSetFrom && f.dominantSet == w.dominantSet
  }

  /** `last` has been seen: each boolean in it is the last one shown. */
  predicate Includes(seen: Levels, last: Levels) {
    && (last.setOn.Some? ==> seen.setOn == last.setOn)
    && (last.resetOn.Some? ==> seen.resetOn == last.resetOn)
    && (last.toggleOn.Some? ==> seen.toggleOn == last.toggleOn)
    && (last.gateOn.Some? ==> seen.gateOn == last.gateOn)
  }

  function Merge(seen: Levels, env: Levels): Levels {
    Levels(Later(seen.setOn, env.setOn), Later(seen.resetOn, env.resetOn), Later(seen.toggleOn, env.toggleOn),
           Later(seen.gateOn, env.gateOn), Later(seen.setFrom, env.setFrom))
  }

  /** Re-evaluating a wire only when it is fed gives the edge and baseline that
      re-evaluating it always would. */
  lemma WireDispatch(
    w: Option<Wire>, mode: Option<Mode>, seen: Option<bool>, last: Option<bool>, cur: Option<bool>, fed: bool)
    requires WireKnows(w, mode, seen) && (last.Some? ==> seen == last) && (!fed ==> cur == last)
    ensures (fed && FiredFor(w, cur)) == RefFired(mode, seen, cur)
    ensures WireKnows(if fed then Rebase(w, cur) else w, mode, Later(seen, cur))
  {
  }

  /** The cached gate level gives the window that re-evaluating the gate would. */
  lemma GateDispatch(f: Flipflop, w: Wiring, seen: Levels, last: Levels, s: Feeds, env: Levels)
    requires Knows(f, w, seen) && Includes(seen, last) && OnlyFed(s, last, env)
    ensures var g := GateWindow(f, s, env);
            && g.open == RefOpen(w, seen.gateOn, env.gateOn)
            && g.sample == RefSample(w, seen.gateOn, env.gateOn, s.setFrom)
            && GateKnows(g.gateAsserting, w.gateOn, Later(seen.gateOn, env.gateOn))
  {
    WireDispatch(f.gateWire, w.gateOn, seen.gateOn, last.gateOn, env.gateOn, s.gateOn);
  }

  lemma {:induction false} DesiredDispatch(
    f: Flipflop, w: Wiring, history: seq<Levels>, last: Levels, s: Feeds, env: Levels)
    requires Knows(f, w, Seen(history)) && Includes(Seen(history), last) && OnlyFed(s, last, env)
    ensures NewDesired(f, s, env) == RefDesired(w, history, env, s.setFrom, f.desired)
  {
    var seen := Seen(history);
    GateDispatch(f, w, seen, last, s, env);
    WireDispatch(f.setWire, w.setOn, seen.setOn, last.setOn, env.setOn, s.setOn);
    WireDispatch(f.resetWire, w.resetOn, seen.resetOn, last.resetOn, env.resetOn, s.resetOn);
    WireDispatch(f.toggleWire, w.toggleOn, seen.toggleOn, last.toggleOn, env.toggleOn, s.toggleOn);
  }

  lemma RebasedKnows(f: Flipflop, w: Wiring, seen: Levels, last: Levels, s: Feeds, env: Levels)
    requires Knows(f, w, seen) && Includes(seen, last) && OnlyFed(s, last, env)
    ensures Knows(Rebased(f, s, env), w, Merge(seen, env))
  {
    GateDispatch(f, w, seen, last, s, env);
    WireDispatch(f.setWire, w.setOn, seen.setOn, last.setOn, env.setOn, s.setOn);
    WireDispatch(f.resetWire, w.resetOn, seen.resetOn, last.resetOn, env.resetOn, s.resetOn);
    WireDispatch(f.toggleWire, w.toggleOn, seen.toggleOn, last.toggleOn, env.toggleOn, s.toggleOn);
    WireDispatch(f.gateWire, w.gateOn, seen.gateOn, last.gateOn, env.gateOn, s.gateOn);
  }

  // ----- the whole run -----

  predicate Good(f: Flipflop, w: Wiring, history: seq<Levels>, desired: bool) {
    && history != []
    && Knows(f, w, Seen(history)) && Includes(Seen(history), history[|history| - 1])
    && f.desired == f.m.rawInput == desired
    && NoTimeout(f.m)
  }

  lemma {:induction false} NotifyGood(
    f: Flipflop, w: Wiring, history: seq<Levels>, desired: bool, s: Feeds, env: Levels)
    requires Good(f, w, history, desired) && OnlyFed(s, history[|history| - 1], env)
    ensures Good(OnSourceChanged(f, s, env), w, history + [env], RefDesired(w, history, env, s.setFrom, desired))
  {
    var r := Reconcile(f);
    assert r == f;
    DesiredDispatch(f, w, history, history[|history| - 1], s, env);
    RebasedKnows(f, w, Seen(history), history[|history| - 1], s, env);
    RawKeepsNoTimeout(f.m, NewDesired(f, s, env));
    assert (history + [env])[..|history|] == history;
    assert Seen(history + [env]) == Merge(Seen(history), env);
  }

  lemma {:induction false} StepGood(f: Flipflop, w: Wiring, history: seq<Levels>, desired: bool, op: Op)
    requires Good(f, w, history, desired) && !op.Notify?
    ensures Good(Step(f, op), w, history, RefNext(w, history, op, desired))
  {
    match op
    case SetOp(v) => RawKeepsNoTimeout(f.m, v);
    case ToggleOp => RawKeepsNoTimeout(f.m, !f.m.rawInput);
    case ClearOp => OtherKeepsNoTimeout(f.m, false);
    case Tick(_) =>
    case Inhibited(v) => OtherKeepsNoTimeout(f.m, v);
    case Timer(k) => FireKeepsNoTimeout(f.m, k);
  }

  function Fresh(mode: Option<Mode>): Option<Wire> {
    if mode.Some? then Some(Wire(mode.value, false, false)) else None
  }

  function New(w: Wiring, b: Behavior, t0: int): Flipflop {
    Flipflop(Fresh(w.setOn), Fresh(w.resetOn), Fresh(w.toggleOn), Fresh(w.gateOn), w.hasSetFrom, w.dominantSet,
             false, false, ConditionMachine.New(b, t0))
  }

  lemma StartGood(w: Wiring, b: Behavior, t0: int, start: Levels)
    requires b.timeout <= 0
    ensures Good(Start(New(w, b, t0), start), w, [start], b.startActive)
  {
    assert [start][..0] == [];
    assert Seen([start]) == start;
  }

  lemma {:induction false} RunGood(w: Wiring, b: Behavior, t0: int, start: Levels, ops: seq<Op>)
    requires b.timeout <= 0 && SourcesNotify(start, ops)
    ensures Good(Run(Start(New(w, b, t0), start), ops), w, History(start, ops), RefRun(w, b.startActive, start, ops))
  {
    if ops == [] {
      StartGood(w, b, t0, start);
    } else {
      var p := ops[..|ops| - 1];
      var op := ops[|ops| - 1];
      RunGood(w, b, t0, start, p);
      var f := Run(Start(New(w, b, t0), start), p);
      if op.Notify? {
        NotifyGood(f, w, History(start, p), RefRun(w, b.startActive, start, p), op.s, op.env);
      } else {
        StepGood(f, w, History(start, p), RefRun(w, b.startActive, start, p), op);
      }
    }
  }

  /** In every run in which a notification means that only what its source
      feeds has changed, dispatching by source yields the desired output of
      re-evaluating every wire against its whole history, and the desired
      output is always the machine's raw input. */
  lemma {:induction false} DispatchRefinesReference(w: Wiring, b: Behavior, t0: int, start: Levels, ops: seq<Op>)
    requires b.timeout <= 0 && SourcesNotify(start, ops)
    ensures var f := Run(Start(New(w, b, t0), start), ops);
            && f.desired == RefRun(w, b.startActive, start, ops)
            && f.m.rawInput == f.desired
  {
    RunGood(w, b, t0, start, ops);
  }

  lemma DesiredKept(f: Flipflop, op: Op)
    requires NoTimeout(f.m) && f.desired == f.m.rawInput
    ensures NoTimeout(Step(f, op).m) && Step(f, op).desired == Step(f, op).m.rawInput
  {
    match op
    case Notify(s, env) => RawKeepsNoTimeout(f.m, NewDesired(Reconcile(f), s, env));
    case SetOp(v) => RawKeepsNoTimeout(f.m, v);
    case ToggleOp => RawKeepsNoTimeout(f.m, !f.m.rawInput);
    case ClearOp => OtherKeepsNoTimeout(f.m, false);
    case Tick(_) =>
    case Inhibited(v) => OtherKeepsNoTimeout(f.m, v);
    case Timer(k) => FireKeepsNoTimeout(f.m, k);
  }

  /** Whatever the notifications, the desired output is the machine's input. */
  lemma {:induction false} DesiredIsInput(w: Wiring, b: Behavior, t0: int, start: Levels, ops: seq<Op>)
    requires b.timeout <= 0
    ensures var f := Run(Start(New(w, b, t0), start), ops);
            NoTimeout(f.m) && f.desired == f.m.rawInput
  {
    if ops != [] {
      DesiredIsInput(w, b, t0, start, ops[..|ops| - 1]);
      DesiredKept(Run(Start(New(w, b, t0), start), ops[..|ops| - 1]), ops[|ops| - 1]);
    }
  }

  // ----- edges outside the window are gone -----

  predicate SameEvents(x: Levels, y: Levels) {
    x.setOn == y.setOn && x.resetOn == y.resetOn && x.toggleOn == y.toggleOn
  }

  /** Every notification in `later` leaves the event wires at `env`. */
  predicate EventsStay(env: Levels, later: seq<Op>) {
    forall i :: 0 <= i < |later| && later[i].Notify? ==> SameEvents(later[i].env, env)
  }

  /** With the gate closed, a notification changes nothing; */
  lemma ClosedGateHolds(w: Wiring, history: seq<Levels>, env: Levels, setFromNotified: bool, desired: bool)
    requires !RefOpen(w, Seen(history).gateOn, env.gateOn)
    ensures RefDesired(w, history, env, setFromNotified, desired) == desired
  {
  }

  /** The wiring with its event wires cut. */
  function NoEvents(w: Wiring): Wiring {
    w.(setOn := None, resetOn := None, toggleOn := None)
  }

  /** The run of `later` after `pre` with the event wires cut. */
  function CutRun(w: Wiring, start: Levels, pre: seq<Op>, later: seq<Op>, desired: bool): bool {
    if later == [] then desired
    else
      var n := |later| - 1;
      RefNext(NoEvents(w), History(start, pre + later[..n]), later[n], CutRun(w, start, pre, later[..n], desired))
  }

  /** and an edge it saw never acts later: through any operations, while the
      event wires stay put, the output goes on as if they were not there,
      whatever the gate does. */
  lemma {:induction false} ClosedEdgeIsGone(
    w: Wiring, startActive: bool, start: Levels, ops: seq<Op>, s: Feeds, env: Levels, later: seq<Op>)
    requires !RefOpen(w, Seen(History(start, ops)).gateOn, env.gateOn) && EventsStay(env, later)
    ensures RefRun(w, startActive, start, ops + [Notify(s, env)] + later)
            == CutRun(w, start, ops + [Notify(s, env)], later, RefRun(w, startActive, start, ops))
    ensures ShowsEvents(Seen(History(start, ops + [Notify(s, env)] + later)), env)
    decreases |later|
  {
    var pre := ops + [Notify(s, env)];
    if later == [] {
      assert pre + later == pre;
      RunNext(w, startActive, start, ops, Notify(s, env));
      ClosedGateHolds(w, History(start, ops), env, s.setFrom, RefRun(w, startActive, start, ops));
      SeenNext(History(start, ops), env);
    } else {
      var n := |later| - 1;
      var p := pre + later[..n];
      assert pre + later == p + [later[n]];
      ClosedEdgeIsGone(w, startActive, start, ops, s, env, later[..n]);
      RunNext(w, startActive, start, p, later[n]);
      if later[n].Notify? {
        SeenNext(History(start, p), later[n].env);
        NoChangeNoEdge(w, History(start, p), later[n].env, env, later[n].s.setFrom, RefRun(w, startActive, start, p));
      }
    }
  }

  /** So it is with the flipflop itself. */
  lemma {:induction false} ClosedEdgeNeverDrives(
    w: Wiring, b: Behavior, t0: int, start: Levels, ops: seq<Op>, s: Feeds, env: Levels, later: seq<Op>)
    requires !RefOpen(w, Seen(History(start, ops)).gateOn, env.gateOn) && EventsStay(env, later)
    requires b.timeout <= 0 && SourcesNotify(start, ops) && SourcesNotify(start, ops + [Notify(s, env)] + later)
    ensures var f := Start(New(w, b, t0), start);
            var n := Run(f, ops + [Notify(s, env)] + later);
            && n.m.rawInput == n.desired
            && n.desired == CutRun(w, start, ops + [Notify(s, env)], later, Run(f, ops).desired)
  {
    ClosedEdgeIsGone(w, b.startActive, start, ops, s, env, later);
    DispatchRefinesReference(w, b, t0, start, ops);
    DispatchRefinesReference(w, b, t0, start, ops + [Notify(s, env)] + later);
  }

  lemma RunNext(w: Wiring, startActive: bool, start: Levels, p: seq<Op>, op: Op)
    ensures RefRun(w, startActive, start, p + [op])
            == RefNext(w, History(start, p), op, RefRun(w, startActive, start, p))
    ensures History(start, p + [op]) == if op.Notify? then History(start, p) + [op.env] else History(start, p)
  {
    assert (p + [op])[..|p|] == p;
  }

  /** Every boolean the event wires have in `env` is the last one seen. */
  predicate ShowsEvents(seen: Levels, env: Levels) {
    && (env.setOn.Some? ==> seen.setOn == env.setOn)
    && (env.resetOn.Some? ==> seen.resetOn == env.resetOn)
    && (env.toggleOn.Some? ==> seen.toggleOn == env.toggleOn)
  }

  lemma SeenNext(h: seq<Levels>, env: Levels)
    ensures Seen(h + [env]) == Merge(Seen(h), env)
  {
    assert (h + [env])[..|h|] == h;
  }

  lemma NoChangeNoEdge(w: Wiring, h: seq<Levels>, next: Levels, env: Levels, notified: bool, desired: bool)
    requires ShowsEvents(Seen(h), env)
    requires SameEvents(next, env)
    ensures RefDesired(w, h, next, notified, desired) == RefDesired(NoEvents(w), h, next, notified, desired)
    ensures ShowsEvents(Merge(Seen(h), next), env)
  {
  }
}
