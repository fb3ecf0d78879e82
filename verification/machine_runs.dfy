/** Runs of the condition machine: what every reachable state satisfies, for
    every behaviour and every interleaving of operations, clock advances and
    timer firings.

    In any run timers may fire arbitrarily late and operations may overtake a
    due timer. In a prompt run (`Prompt`) a due timer runs before the clock or
    any caller moves on. `late_callbacks.dfy` adds the callbacks of timers that
    were stopped too late. */
module MachineRuns {
  import opened Options
  import opened ConditionMachine

  function Run(m: Machine, ls: seq<Label>): Machine {
    if ls == [] then m else Step(Run(m, ls[..|ls| - 1]), ls[|ls| - 1])
  }

  // ----- the invariant of ordinary runs -----

  predicate PendingOk(m: Machine) {
    match m.state
    case PendingActivation =>
      && m.b.activateAfter > 0
      && !m.inhibited
      && (if m.rawInput then
            && m.retStartedAt.Some?
            && m.retStartedAt.value <= m.now
            && m.pendingTimer == Live(Activate, m.retStartedAt.value + m.b.activateAfter - m.retAccumulated)
          else
            m.b.retentive && m.pendingTimer.Nil? && m.retStartedAt.None?)
    case PendingDeactivation =>
      m.pendingTimer.Live? && m.pendingTimer.kind.Deactivate? && !m.rawInput
    case _ => m.pendingTimer.Nil?
  }

  predicate AccumulatorOk(m: Machine) {
    && m.retAccumulated >= 0
    && (!m.state.PendingActivation? || !m.b.retentive ==> m.retAccumulated == 0)
  }

  predicate LatchOk(m: Machine) {
    && (m.latched <==> m.state.Active? && m.b.latch)
    && (m.b.latch ==> !m.state.PendingDeactivation?)
    && (m.state.Active? && !m.latched ==> m.rawInput)
  }

  predicate TimeoutOk(m: Machine) {
    && (m.timeoutTimer.Live? ==> m.timeoutTimer.kind.Timeout?)
    && (m.state.Active? && !m.b.latch && m.b.timeout > 0 ==> m.timeoutTimer.Live?)
    && (m.timeoutTimer.Live? ==> Raised(m) && !m.b.latch && m.b.timeout > 0)
    && (m.timeoutTimer.Live? && m.state.Active? ==> m.timeoutTimer.at <= m.now + m.b.timeout)
  }

  predicate CooldownOk(m: Machine) {
    && m.cooldownTimer == (if m.cooldownUntil.Some? then Live(Cooldown, m.cooldownUntil.value) else Nil)
    && (CooldownActive(m) ==> m.state.Inactive?)
  }

  predicate NothingLost(m: Machine) {
    m.state.Inactive? && m.rawInput ==> m.inhibited || m.cooldownTimer.Live?
  }

  predicate Inv(m: Machine) {
    PendingOk(m) && AccumulatorOk(m) && LatchOk(m) && TimeoutOk(m) && CooldownOk(m) && NothingLost(m)
  }

  /** `n` is a state `m` may turn into without time passing. */
  predicate Keeps(m: Machine, n: Machine) {
    Inv(n) && n.b == m.b && n.now == m.now
  }

  lemma TryActivateKeeps(m: Machine)
    requires m.state.Inactive? && m.rawInput
    requires PendingOk(m) && AccumulatorOk(m) && LatchOk(m) && TimeoutOk(m) && CooldownOk(m)
    ensures Keeps(m, TryActivate(m))
  {
  }

  lemma NotifyKeeps(m: Machine, n: Machine)
    requires Keeps(m, n)
    ensures Keeps(m, Notify(m, n))
  {
  }

  lemma PendingInputKeeps(m: Machine, v: bool)
    requires Inv(m) && m.rawInput != v && !Raised(m)
    ensures Keeps(m, OnInputChange(m.(rawInput := v), v))
  {
    if m.state.Inactive? && v {
      TryActivateKeeps(m.(rawInput := v));
    }
  }

  lemma RaisedInputKeeps(m: Machine, v: bool)
    requires Inv(m) && m.rawInput != v && Raised(m)
    ensures Keeps(m, OnInputChange(m.(rawInput := v), v))
  {
  }

  lemma RawKeeps(m: Machine, v: bool)
    requires Inv(m)
    ensures Keeps(m, SetRawInput(m, v))
  {
    if m.rawInput != v {
      if Raised(m) { RaisedInputKeeps(m, v); } else { PendingInputKeeps(m, v); }
      NotifyKeeps(m, OnInputChange(m.(rawInput := v), v));
    }
  }

  lemma InhibitKeeps(m: Machine, v: bool)
    requires Inv(m)
    ensures Keeps(m, SetInhibited(m, v))
  {
    if m.state.Inactive? && m.rawInput && !v {
      TryActivateKeeps(m.(inhibited := v));
    }
  }

  lemma PendingFireKeeps(m: Machine, k: Kind)
    requires Inv(m) && (k.Activate? || k.Deactivate?)
    ensures Keeps(m, FireTimer(m, k))
  {
  }

  lemma TimeoutFireKeeps(m: Machine)
    requires Inv(m)
    ensures Keeps(m, FireTimer(m, Timeout))
  {
  }

  lemma CooldownFireKeeps(m: Machine)
    requires Inv(m)
    ensures Keeps(m, FireTimer(m, Cooldown))
  {
    var d := m.(cooldownTimer := Nil, cooldownUntil := None);
    if m.state.Inactive? && m.rawInput {
      TryActivateKeeps(d);
      NotifyKeeps(d, TryActivate(d));
    }
  }

  lemma StepKeeps(m: Machine, l: Label)
    requires Inv(m)
    ensures Inv(Step(m, l))
    ensures Step(m, l).b == m.b && Step(m, l).now == m.now + (if l.Advance? then l.d else 0)
  {
    match l
    case Advance(_) =>
    case Raw(v) => RawKeeps(m, v);
    case Inhibit(v) => InhibitKeeps(m, v);
    case Reset =>
    case Fire(k) =>
      match k {
        case Timeout => TimeoutFireKeeps(m);
        case Cooldown => CooldownFireKeeps(m);
        case _ => PendingFireKeeps(m, k);
      }
  }

  lemma {:induction false} RunKeepsInv(b: Behavior, t0: int, ls: seq<Label>)
    ensures var m := Run(Boot(b, t0), ls); Inv(m) && m.b == b
  {
    if ls != [] {
      RunKeepsInv(b, t0, ls[..|ls| - 1]);
      StepKeeps(Run(Boot(b, t0), ls[..|ls| - 1]), ls[|ls| - 1]);
    }
  }

  // ----- no lost activation -----

  /** An asserted input is never forgotten: an inactive machine with its input
      asserted is inhibited or has a cooldown timer armed for the end of the
      quiet period, and a pending activation is uninhibited with a live timer
      for as long as the input stays asserted. */
  lemma {:induction false} NoLostActivation(b: Behavior, t0: int, ls: seq<Label>)
    ensures var m := Run(Boot(b, t0), ls);
            && (m.state.Inactive? && m.rawInput ==>
                  m.inhibited || (m.cooldownUntil.Some? && m.cooldownTimer == Live(Cooldown, m.cooldownUntil.value)))
            && (m.state.PendingActivation? ==> !m.inhibited)
            && (m.state.PendingActivation? && m.rawInput ==>
                  m.pendingTimer.Live? && m.pendingTimer.kind.Activate?)
  {
    RunKeepsInv(b, t0, ls);
  }

  /** The gates give the activation back: the end of a cooldown or of an
      inhibition moves a waiting machine on. */
  lemma GateReleaseRetries(m: Machine)
    requires Inv(m) && m.state.Inactive? && m.rawInput
    ensures !m.inhibited && Due(m.cooldownTimer, m.now) ==> !Step(m, Fire(Cooldown)).state.Inactive?
    ensures m.inhibited && !CooldownActive(m) ==> !Step(m, Inhibit(false)).state.Inactive?
  {
  }

  // ----- cooldown separation -----

  /** The output cannot rise before `until`. */
  predicate Quiet(m: Machine, until: int) {
    m.now < until ==> m.state.Inactive? && m.cooldownUntil.Some? && until <= m.cooldownUntil.value
  }

  lemma StepKeepsQuiet(m: Machine, l: Label, until: int)
    requires Inv(m) && Quiet(m, until)
    ensures Quiet(Step(m, l), until)
  {
    StepKeeps(m, l);
  }

  lemma {:induction false} RunKeepsQuiet(m: Machine, ls: seq<Label>, until: int)
    requires Inv(m) && Quiet(m, until)
    ensures Inv(Run(m, ls)) && Quiet(Run(m, ls), until)
  {
    if ls != [] {
      RunKeepsQuiet(m, ls[..|ls| - 1], until);
      StepKeeps(Run(m, ls[..|ls| - 1]), ls[|ls| - 1]);
      StepKeepsQuiet(Run(m, ls[..|ls| - 1]), ls[|ls| - 1], until);
    }
  }

  lemma CallbackFallIsQuiet(m: Machine, k: Kind)
    requires Raised(m) && !Raised(Callback(m, k))
    ensures Quiet(Callback(m, k), m.now + m.b.cooldown)
  {
  }

  lemma RawFallIsQuiet(m: Machine, v: bool)
    requires Raised(m) && !Raised(SetRawInput(m, v))
    ensures Quiet(SetRawInput(m, v), m.now + m.b.cooldown)
  {
  }

  lemma NaturalFallIsQuiet(m: Machine, l: Label)
    requires !l.Reset? && Raised(m) && !Raised(Step(m, l))
    ensures Quiet(Step(m, l), m.now + m.b.cooldown)
  {
    match l
    case Raw(v) => RawFallIsQuiet(m, v);
    case Fire(k) => CallbackFallIsQuiet(Spend(m, k), k);
    case _ =>
  }

  /** At least `cooldown` passes between a natural fall of the output (any but
      a clear) and its next rise, whatever happens in between: clears, inhibit
      changes, input edges, timers. */
  lemma {:induction false} CooldownSeparation(
    b: Behavior, t0: int, pre: seq<Label>, fall: Label, mid: seq<Label>, rise: Label)
    requires !fall.Reset?
    requires Raised(Run(Boot(b, t0), pre)) && !Raised(Step(Run(Boot(b, t0), pre), fall))
    requires Raised(Step(Run(Step(Run(Boot(b, t0), pre), fall), mid), rise))
    ensures Step(Run(Step(Run(Boot(b, t0), pre), fall), mid), rise).now
            >= Run(Boot(b, t0), pre).now + b.cooldown
  {
    var m := Run(Boot(b, t0), pre);
    RunKeepsInv(b, t0, pre);
    StepKeeps(m, fall);
    NaturalFallIsQuiet(m, fall);
    RunKeepsQuiet(Step(m, fall), mid, m.now + b.cooldown);
    StepKeepsQuiet(Run(Step(m, fall), mid), rise, m.now + b.cooldown);
  }

  // ----- prompt runs -----

  predicate NoneDue(m: Machine, t: int) {
    !Due(m.pendingTimer, t) && !Due(m.timeoutTimer, t) && !Due(m.cooldownTimer, t)
  }

  /** No timer is waiting to run. */
  predicate Settled(m: Machine) {
    NoneDue(m, m.now)
  }

  /** Time does not pass a deadline, and a caller acts only on a settled machine. */
  predicate PromptStep(m: Machine, l: Label) {
    match l
    case Advance(d) => NoneDue(m, m.now + d - 1)
    case Fire(_) => true
    case _ => Settled(m)
  }

  predicate Prompt(m: Machine, ls: seq<Label>) {
    ls == [] || (Prompt(m, ls[..|ls| - 1]) && PromptStep(Run(m, ls[..|ls| - 1]), ls[|ls| - 1]))
  }

  /** No deadline has been passed, and no accumulator is full. */
  predicate OnTime(m: Machine) {
    && NoneDue(m, m.now - 1)
    && (m.state.PendingActivation? ==> m.retAccumulated < m.b.activateAfter)
  }

  lemma {:induction false} PromptIsOnTime(b: Behavior, t0: int, ls: seq<Label>)
    requires Prompt(Boot(b, t0), ls)
    ensures OnTime(Run(Boot(b, t0), ls))
  {
    if ls != [] {
      var p := ls[..|ls| - 1];
      PromptIsOnTime(b, t0, p);
      RunKeepsInv(b, t0, p);
      StepStaysOnTime(Run(Boot(b, t0), p), ls[|ls| - 1]);
    }
  }

  lemma RawStaysOnTime(m: Machine, v: bool)
    requires Inv(m) && OnTime(m) && Settled(m)
    ensures OnTime(SetRawInput(m, v))
  {
    RawKeeps(m, v);
  }

  lemma FireStaysOnTime(m: Machine, k: Kind)
    requires Inv(m) && OnTime(m)
    ensures OnTime(FireTimer(m, k))
  {
    StepKeeps(m, Fire(k));
  }

  lemma StepStaysOnTime(m: Machine, l: Label)
    requires Inv(m) && PromptStep(m, l) && OnTime(m)
    ensures OnTime(Step(m, l))
  {
    match l
    case Raw(v) => RawStaysOnTime(m, v);
    case Fire(k) => FireStaysOnTime(m, k);
    case _ =>
  }

  // ----- timeout -----

  /** When the machine last became active. */
  function EnteredActive(m: Machine, ls: seq<Label>): int {
    if ls == [] then m.now
    else if Run(m, ls).state.Active? && !Run(m, ls[..|ls| - 1]).state.Active? then Run(m, ls).now
    else EnteredActive(m, ls[..|ls| - 1])
  }

  lemma RawActiveTimer(m: Machine, v: bool)
    requires Inv(m) && !m.b.latch && m.b.timeout > 0 && SetRawInput(m, v).state.Active?
    ensures SetRawInput(m, v).timeoutTimer ==
            if m.state.Active? then m.timeoutTimer else Live(Timeout, m.now + m.b.timeout)
  {
  }

  lemma FireActiveTimer(m: Machine, k: Kind)
    requires Inv(m) && !m.b.latch && m.b.timeout > 0 && FireTimer(m, k).state.Active?
    ensures FireTimer(m, k).timeoutTimer ==
            if m.state.Active? then m.timeoutTimer else Live(Timeout, m.now + m.b.timeout)
  {
  }

  lemma ActiveTimer(m: Machine, l: Label)
    requires Inv(m) && !m.b.latch && m.b.timeout > 0
    requires Step(m, l).state.Active?
    ensures Step(m, l).timeoutTimer ==
            if m.state.Active? then m.timeoutTimer else Live(Timeout, m.now + m.b.timeout)
    ensures !m.state.Active? ==> Step(m, l).now == m.now
  {
    match l
    case Raw(v) => RawKeeps(m, v); RawActiveTimer(m, v);
    case Fire(k) => StepKeeps(m, l); FireActiveTimer(m, k);
    case _ =>
  }

  /** With a timeout and no latch, an active machine has its input asserted and
      a timer due exactly `timeout` after it became active, */
  lemma {:induction false} ActiveHasTimeout(b: Behavior, t0: int, ls: seq<Label>)
    requires !b.latch && b.timeout > 0
    ensures var m := Run(Boot(b, t0), ls);
            m.state.Active? ==>
              m.rawInput && m.timeoutTimer == Live(Timeout, EnteredActive(Boot(b, t0), ls) + b.timeout)
  {
    RunKeepsInv(b, t0, ls);
    if ls != [] && Run(Boot(b, t0), ls).state.Active? {
      var p := ls[..|ls| - 1];
      ActiveHasTimeout(b, t0, p);
      RunKeepsInv(b, t0, p);
      ActiveTimer(Run(Boot(b, t0), p), ls[|ls| - 1]);
    }
  }

  /** so with prompt timers no stay in Active lasts longer than `timeout`. */
  lemma {:induction false} TimeoutBound(b: Behavior, t0: int, ls: seq<Label>)
    requires Prompt(Boot(b, t0), ls) && !b.latch && b.timeout > 0
    ensures var m := Run(Boot(b, t0), ls);
            m.state.Active? ==> m.now - EnteredActive(Boot(b, t0), ls) <= b.timeout
  {
    ActiveHasTimeout(b, t0, ls);
    PromptIsOnTime(b, t0, ls);
  }

  /** A timeout consumes the assertion: the next one is a fresh edge. */
  lemma TimeoutConsumesAssertion(m: Machine)
    requires Inv(m) && m.state.Active? && Due(m.timeoutTimer, m.now)
    ensures var n := Step(m, Fire(Timeout));
            && n.state.Inactive? && !n.rawInput
            && (m.b.cooldown <= 0 && !m.inhibited ==> !Step(n, Raw(true)).state.Inactive?)
  {
  }

  // ----- retentive accounting -----

  /** The time the input has been asserted in the current pending episode,
      counted from the run alone. */
  function AssertedTime(m: Machine, ls: seq<Label>): int {
    if ls == [] || !Run(m, ls).state.PendingActivation? then 0
    else
      var p := ls[..|ls| - 1];
      if !Run(m, p).state.PendingActivation? then 0
      else AssertedTime(m, p) + (if ls[|ls| - 1].Advance? && Run(m, p).rawInput then ls[|ls| - 1].d else 0)
  }

  /** The part of the asserted time not yet added to the accumulator. */
  function Tick(m: Machine): int {
    if m.retStartedAt.Some? then m.now - m.retStartedAt.value else 0
  }

  lemma RawAccounting(m: Machine, v: bool)
    requires Inv(m) && SetRawInput(m, v).state.PendingActivation?
    ensures var n := SetRawInput(m, v);
            n.retAccumulated + Tick(n) == if m.state.PendingActivation? then m.retAccumulated + Tick(m) else 0
  {
  }

  lemma FireAccounting(m: Machine, k: Kind)
    requires Inv(m) && FireTimer(m, k).state.PendingActivation?
    ensures var n := FireTimer(m, k);
            n.retAccumulated + Tick(n) == if m.state.PendingActivation? then m.retAccumulated + Tick(m) else 0
  {
  }

  lemma AccountingStep(m: Machine, l: Label)
    requires Inv(m) && Step(m, l).state.PendingActivation?
    ensures var n := Step(m, l);
            n.retAccumulated + Tick(n) ==
            if m.state.PendingActivation?
            then m.retAccumulated + Tick(m) + (if l.Advance? && m.rawInput then l.d else 0)
            else 0
  {
    match l
    case Raw(v) => RawAccounting(m, v);
    case Fire(k) => FireAccounting(m, k);
    case _ =>
  }

  /** The accumulator is exact, and zero outside a pending episode; the live
      deadline is the remaining time away. */
  lemma {:induction false} RetentiveAccounting(b: Behavior, t0: int, ls: seq<Label>)
    ensures var m := Run(Boot(b, t0), ls);
            var asserted := AssertedTime(Boot(b, t0), ls);
            && (!m.state.PendingActivation? ==> m.retAccumulated == 0)
            && (m.state.PendingActivation? ==> m.retAccumulated + Tick(m) == asserted)
            && (m.state.PendingActivation? && m.rawInput ==>
                  m.pendingTimer == Live(Activate, m.now + b.activateAfter - asserted))
  {
    RunKeepsInv(b, t0, ls);
    if ls != [] && Run(Boot(b, t0), ls).state.PendingActivation? {
      var p := ls[..|ls| - 1];
      RetentiveAccounting(b, t0, p);
      RunKeepsInv(b, t0, p);
      AccountingStep(Run(Boot(b, t0), p), ls[|ls| - 1]);
    }
  }

  lemma ActivationStep(m: Machine, l: Label)
    requires Inv(m) && !Raised(m) && Step(m, l).state.Active?
    ensures if m.state.Inactive? then m.b.activateAfter <= 0
            else if m.rawInput then Due(m.pendingTimer, m.now)
            else m.b.activateAfter <= m.retAccumulated
  {
  }

  /** No activation comes before the input has been asserted for
      `activate_after` in all, and with prompt timers it comes exactly then. */
  lemma {:induction false} ActivationWaits(b: Behavior, t0: int, ls: seq<Label>, l: Label)
    requires !Raised(Run(Boot(b, t0), ls)) && Step(Run(Boot(b, t0), ls), l).state.Active?
    ensures b.activateAfter <= 0 || b.activateAfter <= AssertedTime(Boot(b, t0), ls)
    ensures b.activateAfter > 0 && Prompt(Boot(b, t0), ls) && PromptStep(Run(Boot(b, t0), ls), l) ==>
              AssertedTime(Boot(b, t0), ls) == b.activateAfter
  {
    RunKeepsInv(b, t0, ls);
    RetentiveAccounting(b, t0, ls);
    ActivationStep(Run(Boot(b, t0), ls), l);
    if Prompt(Boot(b, t0), ls) {
      PromptIsOnTime(b, t0, ls);
    }
  }

  // ----- watcher replay -----

  /** `notes` is a chain of changes leading from `from` to `to`. */
  predicate Chain(notes: seq<Note>, from: bool, to: bool) {
    if notes == [] then from == to
    else
      var last := notes[|notes| - 1];
      last.before != last.after && last.after == to && Chain(notes[..|notes| - 1], from, last.before)
  }

  /** `n` follows `m` and has notified exactly if the output changed. */
  predicate Notified(m: Machine, n: Machine) {
    && n.b == m.b
    && n.notes == if Output(m) == Output(n) then m.notes else m.notes + [Note(Output(m), Output(n))]
  }

  lemma CallbackNotifies(m: Machine, k: Kind)
    ensures Notified(m, Callback(m, k))
  {
  }

  /** Every step notifies exactly when the output changes, with the old and
      the new output. */
  lemma StepNotifies(m: Machine, l: Label)
    ensures Notified(m, Step(m, l))
  {
    match l
    case Fire(k) => CallbackNotifies(Spend(m, k), k);
    case _ =>
  }

  lemma ChainExtends(m: Machine, n: Machine, from: bool)
    requires Notified(m, n) && Chain(m.notes, from, Output(m))
    ensures Chain(n.notes, from, Output(n))
  {
    assert (m.notes + [Note(Output(m), Output(n))])[..|m.notes|] == m.notes;
  }

  /** A watcher that folds its notifications from the boot output always holds
      the current output, whatever ran. */
  lemma {:induction false} WatcherReplay(b: Behavior, t0: int, ls: seq<Label>)
    ensures var m := Run(Boot(b, t0), ls);
            m.b == b && Chain(m.notes, Output(Boot(b, t0)), Output(m))
  {
    if ls != [] {
      var p := Run(Boot(b, t0), ls[..|ls| - 1]);
      WatcherReplay(b, t0, ls[..|ls| - 1]);
      StepNotifies(p, ls[|ls| - 1]);
      ChainExtends(p, Step(p, ls[|ls| - 1]), Output(Boot(b, t0)));
    }
  }
}
