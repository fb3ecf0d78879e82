/** The timer condition: a boolean input, debounced on its way to the condition
    machine. The machine may withdraw its view of the input on its own (on a
    timeout), which every submission first takes note of. */
module Timers {
  import opened Options
  import opened ConditionMachine
  import opened MachineInput

  datatype Debouncer = Debouncer(interval: int, m: Machine, rawInput: bool, stableInput: bool, deb: Option<int>)

  /** Takes note of an input the machine has reset on its own. */
  function Reconcile(d: Debouncer): Debouncer {
    if d.m.rawInput != d.stableInput then d.(stableInput := d.m.rawInput, rawInput := d.m.rawInput) else d
  }

  function Submit(d: Debouncer, value: bool): Debouncer {
    var r := Reconcile(d).(rawInput := value);
    if r.interval <= 0 then
      if value == r.stableInput then r else r.(stableInput := value, m := SetRawInput(r.m, value))
    else if value == r.stableInput then r.(deb := None)
    else r.(deb := Some(r.m.now + r.interval))
  }

  function OnDebounceFire(d: Debouncer): Debouncer {
    var f := d.(deb := None);
    if f.rawInput == f.stableInput then f
    else f.(stableInput := f.rawInput, m := SetRawInput(f.m, f.rawInput))
  }

  function Toggled(d: Debouncer): bool {
    !Reconcile(d).stableInput
  }

  function Toggle(d: Debouncer): Debouncer {
    Submit(Reconcile(d), Toggled(d))
  }

  /** `reassert` says that a declared input expression is true right now. */
  function ClearAll(d: Debouncer, reassert: bool): Debouncer {
    var c := d.(deb := None, rawInput := false, stableInput := false, m := Clear(d.m));
    if reassert then c.(rawInput := true, stableInput := true, m := SetRawInput(c.m, true)) else c
  }

  function Start(d: Debouncer): Debouncer {
    var s := d.(m := Bootstrap(d.m));
    if d.m.b.startActive then s.(rawInput := true, stableInput := true) else s
  }

  function Started(interval: int, b: Behavior, t0: int): Debouncer {
    Start(Debouncer(interval, New(b, t0), false, false, None))
  }

  datatype Op =
    | Submission(value: bool)
    | Flip
    | ClearInput(reassert: bool)
    | DebounceFire
    | Tick(d: nat)
    | Inhibited(inhibit: bool)
    | Timer(k: Kind)

  predicate DebounceDue(d: Debouncer) {
    d.deb.Some? && d.deb.value <= d.m.now
  }

  function Step(d: Debouncer, op: Op): Debouncer {
    match op
    case Submission(v) => Submit(d, v)
    case Flip => Toggle(d)
    case ClearInput(r) => ClearAll(d, r)
    case DebounceFire => if DebounceDue(d) then OnDebounceFire(d) else d
    case Tick(n) => d.(m := ConditionMachine.Step(d.m, Advance(n)))
    case Inhibited(v) => d.(m := SetInhibited(d.m, v))
    case Timer(k) => d.(m := FireTimer(d.m, k))
  }

  function Run(d: Debouncer, ops: seq<Op>): Debouncer {
    if ops == [] then d else Step(Run(d, ops[..|ops| - 1]), ops[|ops| - 1])
  }

  // ----- the last submission, from the history alone -----

  datatype Submitted = Submitted(at: int, value: bool)

  /** The last value submitted since the last clear, and when. */
  function Last(d: Debouncer, ops: seq<Op>): Option<Submitted> {
    if ops == [] then None
    else
      var p := ops[..|ops| - 1];
      match ops[|ops| - 1]
      case Submission(v) => Some(Submitted(Run(d, p).m.now, v))
      case Flip => Some(Submitted(Run(d, p).m.now, Toggled(Run(d, p))))
      case ClearInput(_) => None
      case _ => Last(d, p)
  }

  // ----- what every run keeps -----

  predicate Inv(d: Debouncer, last: Option<Submitted>) {
    && (d.m.rawInput ==> d.stableInput)
    && (last.Some? ==> d.rawInput == last.value.value)
    && (if d.interval <= 0 then d.deb.None? && d.rawInput == d.stableInput
        else
          && (d.deb.Some? <==> d.rawInput != d.stableInput)
          && (d.deb.Some? ==>
                last.Some? && last.value.value == d.rawInput && d.deb.value == last.value.at + d.interval))
  }

  lemma SubmitKeeps(d: Debouncer, last: Option<Submitted>, v: bool)
    requires Inv(d, last)
    ensures Inv(Submit(d, v), Some(Submitted(d.m.now, v)))
    ensures d.interval <= 0 ==> Submit(d, v).m.rawInput == v
    ensures Submit(d, v).interval == d.interval
  {
    RawSet(d.m, v);
  }

  lemma StepKeeps(d: Debouncer, last: Option<Submitted>, op: Op)
    requires Inv(d, last)
    ensures Step(d, op).interval == d.interval
    ensures Inv(Step(d, op), match op
                             case Submission(v) => Some(Submitted(d.m.now, v))
                             case Flip => Some(Submitted(d.m.now, Toggled(d)))
                             case ClearInput(_) => None
                             case _ => last)
  {
    match op
    case Submission(v) => SubmitKeeps(d, last, v);
    case Flip => ToggleIsSubmit(d); SubmitKeeps(d, last, Toggled(d));
    case ClearInput(r) => RawSet(Clear(d.m), true);
    case DebounceFire => RawSet(d.m, d.rawInput);
    case Tick(_) =>
    case Inhibited(v) => InhibitLeavesInput(d.m, v);
    case Timer(k) => TimersLeaveInput(d.m, k);
  }

  lemma ToggleIsSubmit(d: Debouncer)
    ensures Toggle(d) == Submit(d, Toggled(d))
  {
  }

  lemma {:induction false} RunKeeps(interval: int, b: Behavior, t0: int, ops: seq<Op>)
    ensures var s := Started(interval, b, t0);
            Inv(Run(s, ops), Last(s, ops)) && Run(s, ops).interval == interval
  {
    if ops != [] {
      var s := Started(interval, b, t0);
      RunKeeps(interval, b, t0, ops[..|ops| - 1]);
      StepKeeps(Run(s, ops[..|ops| - 1]), Last(s, ops[..|ops| - 1]), ops[|ops| - 1]);
    }
  }

  /** With a debounce interval, the timer is armed exactly while the submitted
      value differs from the committed one, and is due one interval after the
      last submission. */
  lemma {:induction false} DebounceArmed(interval: int, b: Behavior, t0: int, ops: seq<Op>)
    requires interval > 0
    ensures var s := Started(interval, b, t0);
            var d := Run(s, ops);
            && (d.deb.Some? <==> d.rawInput != d.stableInput)
            && (d.deb.Some? ==>
                  Last(s, ops).Some? && Last(s, ops).value == Submitted(d.deb.value - interval, d.rawInput))
  {
    RunKeeps(interval, b, t0, ops);
  }

  /** Once the timer may run, an edge is committed exactly when the last value
      submitted differs from the committed one and has stood, with nothing
      submitted since, for the whole interval; the machine is then told it. */
  lemma {:induction false} CommitsStableEdges(interval: int, b: Behavior, t0: int, ops: seq<Op>)
    requires interval > 0
    ensures var s := Started(interval, b, t0);
            var d := Run(s, ops);
            var n := Step(d, DebounceFire);
            var last := Last(s, ops);
            && (n.stableInput != d.stableInput <==>
                  last.Some? && last.value.value != d.stableInput && last.value.at + interval <= d.m.now)
            && (n.stableInput != d.stableInput ==> n.stableInput == last.value.value == n.m.rawInput)
  {
    var s := Started(interval, b, t0);
    RunKeeps(interval, b, t0, ops);
    RawSet(Run(s, ops).m, Run(s, ops).rawInput);
  }

  /** Without a debounce interval the machine's input is the submitted value
      after every submission, even if a timeout had silently reset it. */
  lemma {:induction false} SubmitsReachMachine(interval: int, b: Behavior, t0: int, ops: seq<Op>, v: bool)
    requires interval <= 0
    ensures Submit(Run(Started(interval, b, t0), ops), v).m.rawInput == v
  {
    RunKeeps(interval, b, t0, ops);
    SubmitKeeps(Run(Started(interval, b, t0), ops), Last(Started(interval, b, t0), ops), v);
  }

  /** A toggle flips what the machine holds, not a stale cached value. */
  lemma {:induction false} ToggleFlipsMachineInput(interval: int, b: Behavior, t0: int, ops: seq<Op>)
    requires interval <= 0
    ensures var d := Run(Started(interval, b, t0), ops);
            Toggle(d).m.rawInput == !d.m.rawInput
  {
    var d := Run(Started(interval, b, t0), ops);
    RunKeeps(interval, b, t0, ops);
    ToggleIsSubmit(d);
    SubmitKeeps(d, Last(Started(interval, b, t0), ops), Toggled(d));
  }

  // ----- repeated submissions -----

  /** `n` submissions of true, `gap` apart. */
  function Repeated(gap: nat, n: nat): seq<Op> {
    if n == 0 then [] else Repeated(gap, n - 1) + [Submission(true), Tick(gap)]
  }

  /** Each submission of an uncommitted value restarts the interval, so an input
      re-submitted faster than the interval is never committed. */
  lemma {:induction false} RepeatsPostponeCommit(d: Debouncer, gap: nat, n: nat)
    requires d.interval > gap && !d.stableInput && !d.m.rawInput && d.deb.None?
    ensures var e := Run(d, Repeated(gap, n));
            && !e.stableInput && !e.m.rawInput && !DebounceDue(e) && e.interval == d.interval
  {
    if n > 0 {
      RepeatsPostponeCommit(d, gap, n - 1);
      var p := Repeated(gap, n - 1);
      var ops := Repeated(gap, n);
      assert ops[..|ops| - 1] == p + [Submission(true)];
      assert (p + [Submission(true)])[..|p|] == p;
    }
  }

  // ----- the machine is told -----

  lemma StepTells(d: Debouncer, op: Op)
    requires NoTimeout(d.m) && d.m.rawInput == d.stableInput
    ensures NoTimeout(Step(d, op).m) && Step(d, op).m.rawInput == Step(d, op).stableInput
  {
    match op
    case Submission(v) => RawKeepsNoTimeout(d.m, v);
    case Flip => RawKeepsNoTimeout(d.m, !d.m.rawInput);
    case ClearInput(_) =>
      OtherKeepsNoTimeout(d.m, false);
      RawKeepsNoTimeout(Clear(d.m), true);
    case DebounceFire => RawKeepsNoTimeout(d.m, d.rawInput);
    case Tick(_) =>
    case Inhibited(v) => OtherKeepsNoTimeout(d.m, v);
    case Timer(k) => FireKeepsNoTimeout(d.m, k);
  }

  /** A toggle submits the opposite of what the machine holds. */
  lemma ToggleSubmitsOpposite(d: Debouncer)
    ensures Toggle(d) == Submit(d, !d.m.rawInput)
  {
  }

  /** A clear drops what is pending and leaves the machine asserted exactly if
      the declared input is. */
  lemma ClearReasserts(d: Debouncer, reassert: bool)
    ensures var n := Step(d, ClearInput(reassert));
            n.m.rawInput == n.stableInput == n.rawInput == reassert && n.deb.None? && n.m.now == d.m.now
  {
    RawSet(Clear(d.m), true);
  }

  /** What undebounced operations leave asserted. */
  function Asserted(start: bool, ops: seq<Op>): bool {
    if ops == [] then start
    else
      var before := Asserted(start, ops[..|ops| - 1]);
      match ops[|ops| - 1]
      case Submission(v) => v
      case Flip => !before
      case ClearInput(reassert) => reassert
      case _ => before
  }

  /** The value committed so far. */
  function Committed(s: Debouncer, ops: seq<Op>): bool {
    if ops == [] then s.stableInput
    else
      var p := ops[..|ops| - 1];
      var last := Last(s, p);
      match ops[|ops| - 1]
      case ClearInput(reassert) => reassert
      case DebounceFire =>
        if last.Some? && last.value.at + s.interval <= Run(s, p).m.now then last.value.value else Committed(s, p)
      case _ => Committed(s, p)
  }

  /** Without a timeout the machine always holds the committed value, which the
      history decides: the last value set, or with a debounce the last one that
      had stood for the interval when the timer ran. */
  lemma {:induction false} MachineIsTold(interval: int, b: Behavior, t0: int, ops: seq<Op>)
    requires b.timeout <= 0
    ensures var s := Started(interval, b, t0);
            var d := Run(s, ops);
            && NoTimeout(d.m) && d.m.rawInput == d.stableInput
            && d.stableInput == if interval <= 0 then Asserted(b.startActive, ops) else Committed(s, ops)
  {
    if ops != [] {
      var s, p, op := Started(interval, b, t0), ops[..|ops| - 1], ops[|ops| - 1];
      MachineIsTold(interval, b, t0, p);
      RunKeeps(interval, b, t0, p);
      StepTells(Run(s, p), op);
      StepCommits(Run(s, p), Last(s, p), op);
    }
  }

  lemma StepCommits(d: Debouncer, last: Option<Submitted>, op: Op)
    requires Inv(d, last) && NoTimeout(d.m) && d.m.rawInput == d.stableInput
    ensures Step(d, op).stableInput ==
            match op
            case Submission(v) => if d.interval <= 0 then v else d.stableInput
            case Flip => if d.interval <= 0 then !d.stableInput else d.stableInput
            case ClearInput(reassert) => reassert
            case DebounceFire =>
              if d.interval > 0 && last.Some? && last.value.at + d.interval <= d.m.now then last.value.value
              else d.stableInput
            case _ => d.stableInput
  {
  }
}
