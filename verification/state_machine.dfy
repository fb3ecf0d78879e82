/** The condition machine as the program keeps it: an object whose fields each
    locked method updates in place. Every method is proved to have exactly the
    effect of the function of the same name in `ConditionMachine`, so everything proved
    about runs of those functions holds of the object. */
module StateMachines {
  import opened Options
  import opened ConditionMachine

  /** The source of time. Timers are the deadlines kept in the fields. */
  class Clock {
    var now: int
    constructor (now: int)
      ensures this.now == now
    {
      this.now := now;
    }
  }

  class StateMachine {
    const b: Behavior
    const clock: Clock
    var state: State
    var rawInput: bool
    var latched: bool
    var inhibited: bool
    var cooldownUntil: Option<int>
    var pendingTimer: Timer
    var timeoutTimer: Timer
    var cooldownTimer: Timer
    var retAccumulated: int
    var retStartedAt: Option<int>
    var notes: seq<Note>

    /** The machine as a value. */
    ghost function Snap(): Machine
      reads this, clock
    {
      Machine(b, clock.now, state, rawInput, latched, inhibited, cooldownUntil,
              pendingTimer, timeoutTimer, cooldownTimer, retAccumulated, retStartedAt, notes)
    }

    constructor (b: Behavior, clock: Clock)
      ensures this.b == b && this.clock == clock
      ensures Snap() == New(b, clock.now)
    {
      this.b := b;
      this.clock := clock;
      state := State.Inactive;
      rawInput, latched, inhibited := false, false, false;
      cooldownUntil := None;
      pendingTimer, timeoutTimer, cooldownTimer := Nil, Nil, Nil;
      retAccumulated := 0;
      retStartedAt := None;
      notes := [];
    }

    method Bootstrap()
      modifies this
      ensures Snap() == ConditionMachine.Bootstrap(old(Snap()))
    {
      if !b.startActive {
        return;
      }
      state := State.Active;
      rawInput := true;
      if b.latch {
        latched := true;
      } else if b.timeout > 0 {
        timeoutTimer := Live(Kind.Timeout, clock.now + b.timeout);
      }
    }

    method SetRawInput(value: bool)
      modifies this
      ensures Snap() == ConditionMachine.SetRawInput(old(Snap()), value)
    {
      if rawInput == value {
        return;
      }
      rawInput := value;
      var before := OutputLocked();
      OnInputChangeLocked(value);
      var after := OutputLocked();
      if before != after {
        NotifyAll(before, after);
      }
    }

    method OnInputChangeLocked(value: bool)
      modifies this
      ensures Snap() == OnInputChange(old(Snap()), value)
    {
      match state {
        case Inactive =>
          if value {
            TryActivateLocked();
          }
        case PendingActivation =>
          if !value {
            if b.retentive {
              PauseRetentiveLocked();
            } else {
              CancelPendingLocked();
              state := State.Inactive;
            }
          } else {
            if b.retentive && pendingTimer.Nil? {
              ResumeRetentiveLocked();
            }
          }
        case Active =>
          if value {
            RestartTimeoutLocked();
          } else {
            if latched {
              return;
            }
            if b.deactivateAfter > 0 {
              state := State.PendingDeactivation;
              pendingTimer := Live(Deactivate, clock.now + b.deactivateAfter);
            } else {
              BecomeInactiveLocked();
            }
          }
        case PendingDeactivation =>
          if value {
            CancelPendingLocked();
            state := State.Active;
            RestartTimeoutLocked();
          }
      }
    }

    method TryActivateLocked()
      modifies this
      ensures Snap() == TryActivate(old(Snap()))
    {
      var cooling := CooldownActiveLocked();
      if cooling || inhibited {
        return;
      }
      if b.activateAfter <= 0 {
        BecomeActiveLocked();
        return;
      }
      var remaining := b.activateAfter - retAccumulated;
      if remaining <= 0 {
        BecomeActiveLocked();
        return;
      }
      state := State.PendingActivation;
      retStartedAt := Some(clock.now);
      pendingTimer := Live(Activate, clock.now + remaining);
    }

    method PauseRetentiveLocked()
      modifies this
      ensures Snap() == PauseRetentive(old(Snap()))
    {
      if !pendingTimer.Nil? {
        pendingTimer := Nil;
      }
      if retStartedAt.Some? {
        retAccumulated := retAccumulated + (clock.now - retStartedAt.value);
        retStartedAt := None;
      }
    }

    method ResumeRetentiveLocked()
      modifies this
      ensures Snap() == ResumeRetentive(old(Snap()))
    {
      var remaining := b.activateAfter - retAccumulated;
      if remaining <= 0 {
        BecomeActiveLocked();
        return;
      }
      retStartedAt := Some(clock.now);
      pendingTimer := Live(Activate, clock.now + remaining);
    }

    method BecomeActiveLocked()
      modifies this
      ensures Snap() == BecomeActive(old(Snap()))
    {
      state := State.Active;
      retAccumulated := 0;
      retStartedAt := None;
      if b.latch {
        latched := true;
      }
      RestartTimeoutLocked();
    }

    method BecomeInactiveLocked()
      modifies this
      ensures Snap() == BecomeInactive(old(Snap()))
    {
      state := State.Inactive;
      CancelTimeoutLocked();
      if b.cooldown > 0 {
        cooldownUntil := Some(clock.now + b.cooldown);
        cooldownTimer := Live(Kind.Cooldown, clock.now + b.cooldown);
      }
    }

    method RestartTimeoutLocked()
      modifies this
      ensures Snap() == RestartTimeout(old(Snap()))
    {
      CancelTimeoutLocked();
      if latched || b.timeout <= 0 {
        return;
      }
      timeoutTimer := Live(Kind.Timeout, clock.now + b.timeout);
    }

    method CancelPendingLocked()
      modifies this
      ensures Snap() == CancelPending(old(Snap()))
    {
      if !pendingTimer.Nil? {
        pendingTimer := Nil;
      }
    }

    method CancelTimeoutLocked()
      modifies this
      ensures Snap() == CancelTimeout(old(Snap()))
    {
      if !timeoutTimer.Nil? {
        timeoutTimer := Nil;
      }
    }

    method CooldownActiveLocked() returns (r: bool)
      ensures r == CooldownActive(Snap())
    {
      r := cooldownUntil.Some? && clock.now < cooldownUntil.value;
    }

    // ----- timer callbacks -----

    method OnActivateTimer()
      modifies this
      ensures Snap() == ConditionMachine.OnActivateTimer(old(Snap()))
    {
      if !state.PendingActivation? {
        return;
      }
      pendingTimer := Nil;
      var before := OutputLocked();
      BecomeActiveLocked();
      var after := OutputLocked();
      if before != after {
        NotifyAll(before, after);
      }
    }

    method OnDeactivateTimer()
      modifies this
      ensures Snap() == ConditionMachine.OnDeactivateTimer(old(Snap()))
    {
      if !state.PendingDeactivation? {
        return;
      }
      pendingTimer := Nil;
      var before := OutputLocked();
      BecomeInactiveLocked();
      var after := OutputLocked();
      if before != after {
        NotifyAll(before, after);
      }
    }

    method OnTimeoutTimer()
      modifies this
      ensures Snap() == ConditionMachine.OnTimeoutTimer(old(Snap()))
    {
      if !state.Active? {
        return;
      }
      timeoutTimer := Nil;
      var before := OutputLocked();
      BecomeInactiveLocked();
      rawInput := false;
      var after := OutputLocked();
      if before != after {
        NotifyAll(before, after);
      }
    }

    method OnCooldownTimer()
      modifies this
      ensures Snap() == ConditionMachine.OnCooldownTimer(old(Snap()))
    {
      cooldownTimer := Nil;
      cooldownUntil := None;
      if !state.Inactive? || !rawInput {
        return;
      }
      var before := OutputLocked();
      TryActivateLocked();
      var after := OutputLocked();
      if before != after {
        NotifyAll(before, after);
      }
    }

    // ----- outputs -----

    method OutputLocked() returns (r: bool)
      ensures r == Raised(Snap())
    {
      match state {
        case Active => r := true;
        case PendingDeactivation => r := true;
        case _ => r := false;
      }
    }

    method NotifyAll(before: bool, after: bool)
      modifies this`notes
      ensures notes == old(notes) + [Note(before != b.invert, after != b.invert)]
    {
      var x, y := before, after;
      if b.invert {
        x, y := !x, !y;
      }
      notes := notes + [Note(x, y)];
    }

    method Output() returns (out: bool)
      ensures out == ConditionMachine.Output(Snap())
    {
      out := OutputLocked();
      if b.invert {
        out := !out;
      }
    }

    method RawInput() returns (r: bool)
      ensures r == rawInput
    {
      r := rawInput;
    }

    method SetInhibited(inhibit: bool)
      modifies this
      ensures Snap() == ConditionMachine.SetInhibited(old(Snap()), inhibit)
    {
      if inhibited == inhibit {
        return;
      }
      inhibited := inhibit;
      var before := OutputLocked();
      if inhibit {
        if state.PendingActivation? {
          CancelPendingLocked();
          retAccumulated := 0;
          retStartedAt := None;
          state := State.Inactive;
        }
      } else {
        if state.Inactive? && rawInput {
          TryActivateLocked();
        }
      }
      var after := OutputLocked();
      if before != after {
        NotifyAll(before, after);
      }
    }

    method Clear()
      modifies this
      ensures Snap() == ConditionMachine.Clear(old(Snap()))
    {
      var before := OutputLocked();
      CancelPendingLocked();
      CancelTimeoutLocked();
      latched := false;
      retAccumulated := 0;
      retStartedAt := None;
      rawInput := false;
      state := State.Inactive;
      var after := OutputLocked();
      if before != after {
        NotifyAll(before, after);
      }
    }

    /** One step of a run, performed on the object: the caller's operation, the
        passing of time, or a timer that is due running its callback. */
    method Perform(l: Label)
      modifies this, clock
      ensures Snap() == Step(old(Snap()), l)
    {
      match l {
        case Advance(d) => clock.now := clock.now + d;
        case Raw(v) => SetRawInput(v);
        case Inhibit(v) => SetInhibited(v);
        case Reset => Clear();
        case Fire(k) => RunTimer(k);
      }
    }

    /** The runtime takes a due timer and runs its callback. */
    method RunTimer(k: Kind)
      modifies this
      ensures Snap() == FireTimer(old(Snap()), k)
    {
      match k {
        case Activate =>
          if Due(pendingTimer, clock.now) && pendingTimer.kind.Activate? {
            pendingTimer := Spent;
            OnActivateTimer();
          }
        case Deactivate =>
          if Due(pendingTimer, clock.now) && pendingTimer.kind.Deactivate? {
            pendingTimer := Spent;
            OnDeactivateTimer();
          }
        case Timeout =>
          if Due(timeoutTimer, clock.now) && timeoutTimer.kind.Timeout? {
            timeoutTimer := Spent;
            OnTimeoutTimer();
          }
        case Cooldown =>
          if Due(cooldownTimer, clock.now) && cooldownTimer.kind.Cooldown? {
            cooldownTimer := Spent;
            OnCooldownTimer();
          }
      }
    }
  }
}
