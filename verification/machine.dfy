/** The four-state condition machine as a value and one pure function per
    locked operation and timer callback. `state_machine.dfy` holds the object
    that updates its fields in place and is proved equal to these functions;
    `machine_runs.dfy` proves what every run of them keeps.

    Instants and durations are integers. A duration that is zero or negative
    disables its behaviour, as in the program. */
module ConditionMachine {
  import opened Options

  datatype State = Inactive | PendingActivation | Active | PendingDeactivation

  /** Which callback a one-shot timer was created with. */
  datatype Kind = Activate | Deactivate | Timeout | Cooldown

  /** A timer field. `Spent` is a field still holding a timer that has already
      fired: not nil, but with nothing left to run. */
  datatype Timer = Nil | Live(kind: Kind, at: int) | Spent

  datatype Behavior = Behavior(
    activateAfter: int,
    deactivateAfter: int,
    timeout: int,
    cooldown: int,
    latch: bool,
    invert: bool,
    retentive: bool,
    startActive: bool)

  /** One watcher notification, after inversion. */
  datatype Note = Note(before: bool, after: bool)

  datatype Machine = Machine(
    b: Behavior,
    now: int,
    state: State,
    rawInput: bool,
    latched: bool,
    inhibited: bool,
    cooldownUntil: Option<int>,
    pendingTimer: Timer,
    timeoutTimer: Timer,
    cooldownTimer: Timer,
    retAccumulated: int,
    retStartedAt: Option<int>,
    notes: seq<Note>)

  // ----- timers -----

  predicate Due(t: Timer, now: int) {
    t.Live? && t.at <= now
  }

  function ArmPending(m: Machine, kind: Kind, d: int): Machine {
    m.(pendingTimer := Live(kind, m.now + d))
  }

  function CancelPending(m: Machine): Machine {
    m.(pendingTimer := Nil)
  }

  function CancelTimeout(m: Machine): Machine {
    m.(timeoutTimer := Nil)
  }

  function RestartTimeout(m: Machine): Machine {
    var c := CancelTimeout(m);
    if c.latched || c.b.timeout <= 0 then c
    else c.(timeoutTimer := Live(Timeout, c.now + c.b.timeout))
  }

  // ----- outputs -----

  /** The output before inversion. */
  predicate Raised(m: Machine) {
    m.state.Active? || m.state.PendingDeactivation?
  }

  predicate Output(m: Machine) {
    Raised(m) != m.b.invert
  }

  /** Appends the notification an operation leading from `before` to `after`
      sends, if the output changed. */
  function Notify(before: Machine, after: Machine): Machine {
    if Raised(before) == Raised(after) then after
    else after.(notes := after.notes + [Note(Raised(before) != after.b.invert, Raised(after) != after.b.invert)])
  }

  // ----- transitions shared by the operations -----

  /** What the shared transitions leave alone. */
  predicate Framed(m: Machine, n: Machine) {
    n.b == m.b && n.now == m.now && n.notes == m.notes && n.rawInput == m.rawInput && n.inhibited == m.inhibited
  }

  function BecomeActive(m: Machine): (n: Machine)
    ensures Framed(m, n)
  {
    RestartTimeout(m.(state := Active, retAccumulated := 0, retStartedAt := None,
                      latched := m.latched || m.b.latch))
  }

  function BecomeInactive(m: Machine): (n: Machine)
    ensures Framed(m, n)
  {
    var c := CancelTimeout(m.(state := Inactive));
    if c.b.cooldown <= 0 then c
    else c.(cooldownUntil := Some(c.now + c.b.cooldown),
            cooldownTimer := Live(Cooldown, c.now + c.b.cooldown))
  }

  predicate CooldownActive(m: Machine) {
    m.cooldownUntil.Some? && m.now < m.cooldownUntil.value
  }

  function TryActivate(m: Machine): (n: Machine)
    ensures Framed(m, n)
  {
    if CooldownActive(m) || m.inhibited then m
    else if m.b.activateAfter <= 0 then BecomeActive(m)
    else
      var remaining := m.b.activateAfter - m.retAccumulated;
      if remaining <= 0 then BecomeActive(m)
      else ArmPending(m.(state := PendingActivation, retStartedAt := Some(m.now)), Activate, remaining)
  }

  function PauseRetentive(m: Machine): (n: Machine)
    ensures Framed(m, n)
  {
    var c := CancelPending(m);
    if c.retStartedAt.None? then c
    else c.(retAccumulated := c.retAccumulated + (c.now - c.retStartedAt.value), retStartedAt := None)
  }

  function ResumeRetentive(m: Machine): (n: Machine)
    ensures Framed(m, n)
  {
    var remaining := m.b.activateAfter - m.retAccumulated;
    if remaining <= 0 then BecomeActive(m)
    else ArmPending(m.(retStartedAt := Some(m.now)), Activate, remaining)
  }

  function OnInputChange(m: Machine, value: bool): (n: Machine)
    ensures Framed(m, n)
  {
    match m.state
    case Inactive => if value then TryActivate(m) else m
    case PendingActivation =>
      if !value then
        if m.b.retentive then PauseRetentive(m) else CancelPending(m).(state := Inactive)
      else if m.b.retentive && m.pendingTimer.Nil? then ResumeRetentive(m)
      else m
    case Active =>
      if value then RestartTimeout(m)
      else if m.latched then m
      else if m.b.deactivateAfter > 0 then
        ArmPending(m.(state := PendingDeactivation), Deactivate, m.b.deactivateAfter)
      else BecomeInactive(m)
    case PendingDeactivation =>
      if value then RestartTimeout(CancelPending(m).(state := Active)) else m
  }

  // ----- operations -----

  function New(b: Behavior, now: int): Machine {
    Machine(b, now, Inactive, false, false, false, None, Nil, Nil, Nil, 0, None, [])
  }

  function Bootstrap(m: Machine): Machine {
    if !m.b.startActive then m
    else
      var a := m.(state := Active, rawInput := true);
      if a.b.latch then a.(latched := true)
      else if a.b.timeout > 0 then
        a.(timeoutTimer := Live(Timeout, a.now + a.b.timeout))
      else a
  }

  function Boot(b: Behavior, now: int): Machine {
    Bootstrap(New(b, now))
  }

  function SetRawInput(m: Machine, value: bool): Machine {
    if m.rawInput == value then m
    else Notify(m, OnInputChange(m.(rawInput := value), value))
  }

  function SetInhibited(m: Machine, inhibited: bool): Machine {
    if m.inhibited == inhibited then m
    else
      var c := m.(inhibited := inhibited);
      Notify(m,
             if inhibited then
               if c.state.PendingActivation? then
                 CancelPending(c).(retAccumulated := 0, retStartedAt := None, state := Inactive)
               else c
             else if c.state.Inactive? && c.rawInput then TryActivate(c)
             else c)
  }

  function Clear(m: Machine): Machine {
    Notify(m, CancelTimeout(CancelPending(m)).(latched := false, retAccumulated := 0, retStartedAt := None,
                                               rawInput := false, state := Inactive))
  }

  // ----- timer callbacks -----

  function OnActivateTimer(m: Machine): Machine {
    if !m.state.PendingActivation? then m
    else Notify(m, BecomeActive(m.(pendingTimer := Nil)))
  }

  function OnDeactivateTimer(m: Machine): Machine {
    if !m.state.PendingDeactivation? then m
    else Notify(m, BecomeInactive(m.(pendingTimer := Nil)))
  }

  function OnTimeoutTimer(m: Machine): Machine {
    if !m.state.Active? then m
    else
      var d := m.(timeoutTimer := Nil);
      Notify(m, BecomeInactive(d).(rawInput := false))
  }

  function OnCooldownTimer(m: Machine): Machine {
    var d := m.(cooldownTimer := Nil, cooldownUntil := None);
    if !d.state.Inactive? || !d.rawInput then d
    else Notify(d, TryActivate(d))
  }

  function Callback(m: Machine, k: Kind): Machine {
    match k
    case Activate => OnActivateTimer(m)
    case Deactivate => OnDeactivateTimer(m)
    case Timeout => OnTimeoutTimer(m)
    case Cooldown => OnCooldownTimer(m)
  }

  /** The field the program keeps a timer of kind `k` in. */
  function Slot(m: Machine, k: Kind): Timer {
    match k
    case Timeout => m.timeoutTimer
    case Cooldown => m.cooldownTimer
    case _ => m.pendingTimer
  }

  function Spend(m: Machine, k: Kind): Machine {
    match k
    case Timeout => m.(timeoutTimer := Spent)
    case Cooldown => m.(cooldownTimer := Spent)
    case _ => m.(pendingTimer := Spent)
  }

  /** The timer of kind `k` reaches its deadline and its callback runs. */
  function FireTimer(m: Machine, k: Kind): Machine {
    if Due(Slot(m, k), m.now) && Slot(m, k).kind == k then Callback(Spend(m, k), k) else m
  }

  // ----- one step of a run -----

  datatype Label =
    | Advance(d: nat)
    | Raw(value: bool)
    | Inhibit(inhibited: bool)
    | Reset
    | Fire(k: Kind)

  /** A label whose step is not enabled leaves the machine alone. */
  function Step(m: Machine, l: Label): Machine {
    match l
    case Advance(d) => m.(now := m.now + d)
    case Raw(v) => SetRawInput(m, v)
    case Inhibit(v) => SetInhibited(m, v)
    case Reset => Clear(m)
    case Fire(k) => FireTimer(m, k)
  }
}

/** What becomes of the raw input, which only its owner asserts. */
module MachineInput {
  import opened ConditionMachine

  lemma RawSet(m: Machine, v: bool)
    ensures SetRawInput(m, v).rawInput == v && SetRawInput(m, v).now == m.now && SetRawInput(m, v).b == m.b
  {
  }

  lemma TimersLeaveInput(m: Machine, k: Kind)
    ensures FireTimer(m, k).rawInput ==> m.rawInput
    ensures FireTimer(m, k).now == m.now && FireTimer(m, k).b == m.b
  {
  }

  lemma InhibitLeavesInput(m: Machine, v: bool)
    ensures SetInhibited(m, v).rawInput == m.rawInput && SetInhibited(m, v).now == m.now
    ensures SetInhibited(m, v).b == m.b
  {
  }

  /** Without a timeout nothing but the owner changes the input. */
  predicate NoTimeout(m: Machine) {
    m.b.timeout <= 0 && !m.timeoutTimer.Live?
  }

  lemma RawKeepsNoTimeout(m: Machine, v: bool)
    requires NoTimeout(m)
    ensures NoTimeout(SetRawInput(m, v)) && SetRawInput(m, v).b == m.b && SetRawInput(m, v).rawInput == v
  {
  }

  lemma OtherKeepsNoTimeout(m: Machine, v: bool)
    requires NoTimeout(m)
    ensures NoTimeout(SetInhibited(m, v)) && SetInhibited(m, v).b == m.b && SetInhibited(m, v).rawInput == m.rawInput
    ensures NoTimeout(Clear(m)) && Clear(m).b == m.b && !Clear(m).rawInput
  {
  }

  lemma FireKeepsNoTimeout(m: Machine, k: Kind)
    requires NoTimeout(m)
    ensures NoTimeout(FireTimer(m, k)) && FireTimer(m, k).b == m.b && FireTimer(m, k).rawInput == m.rawInput
  {
  }
}
