/** The timer condition as an object driving a state machine. */
module TimerConditions {
  import opened Options
  import opened ConditionMachine
  import opened StateMachines
  import opened Timers

  class TimerCondition {
    const debounce: int
    const hasInputExpr: bool
    const sm: StateMachine
    var rawInput: bool
    var stableInput: bool
    var debTimer: Option<int>

    ghost function Snap(): Debouncer
      reads this, sm, sm.clock
    {
      Debouncer(debounce, sm.Snap(), rawInput, stableInput, debTimer)
    }

    constructor (debounce: int, hasInputExpr: bool, sm: StateMachine)
      ensures this.debounce == debounce && this.hasInputExpr == hasInputExpr && this.sm == sm
      ensures Snap() == Debouncer(debounce, sm.Snap(), false, false, None)
    {
      this.debounce := debounce;
      this.hasInputExpr := hasInputExpr;
      this.sm := sm;
      rawInput, stableInput := false, false;
      debTimer := None;
    }

    method Start()
      modifies this, sm
      ensures Snap() == Timers.Start(old(Snap()))
    {
      sm.Bootstrap();
      if sm.b.startActive {
        rawInput := true;
        stableInput := true;
      }
    }

    /** Refused when the input is declared. */
    method Set(value: bool) returns (ok: bool)
      modifies this, sm
      ensures ok <==> !hasInputExpr
      ensures Snap() == if ok then Submit(old(Snap()), value) else old(Snap())
    {
      if hasInputExpr {
        return false;
      }
      SubmitInput(value);
      ok := true;
    }

    method Toggle() returns (r: Option<bool>)
      modifies this, sm
      ensures r == if hasInputExpr then None else Some(old(Toggled(Snap())))
      ensures Snap() == if hasInputExpr then old(Snap()) else Timers.Toggle(old(Snap()))
    {
      if hasInputExpr {
        return None;
      }
      var smRaw := sm.RawInput();
      if smRaw != stableInput {
        stableInput := smRaw;
        rawInput := smRaw;
      }
      var newVal := !stableInput;
      SubmitInput(newVal);
      r := Some(newVal);
    }

    method SubmitInput(value: bool)
      modifies this, sm
      ensures Snap() == Submit(old(Snap()), value)
    {
      var smRaw := sm.RawInput();
      if smRaw != stableInput {
        stableInput := smRaw;
        rawInput := smRaw;
      }
      rawInput := value;
      if debounce <= 0 {
        if value == stableInput {
          return;
        }
        stableInput := value;
        sm.SetRawInput(value);
        return;
      }
      if value == stableInput {
        if debTimer.Some? {
          debTimer := None;
        }
        return;
      }
      debTimer := Some(sm.clock.now + debounce);
    }

    method OnDebounceFire()
      modifies this, sm
      ensures Snap() == Timers.OnDebounceFire(old(Snap()))
    {
      debTimer := None;
      if rawInput == stableInput {
        return;
      }
      stableInput := rawInput;
      sm.SetRawInput(stableInput);
    }

    method Clear(reassert: bool)
      modifies this, sm
      ensures Snap() == ClearAll(old(Snap()), reassert)
    {
      debTimer := None;
      rawInput := false;
      stableInput := false;
      sm.Clear();
      if !reassert {
        return;
      }
      rawInput := true;
      stableInput := true;
      sm.SetRawInput(true);
    }

    /** One step of a run, performed on the object; a toggle is refused when the
        input is declared. */
    method Perform(op: Op)
      modifies this, sm, sm.clock
      ensures Snap() == if hasInputExpr && op.Flip? then old(Snap()) else Timers.Step(old(Snap()), op)
    {
      match op {
        case Submission(v) => SubmitInput(v);
        case Flip => var _ := Toggle();
        case ClearInput(reassert) => Clear(reassert);
        case DebounceFire =>
          if debTimer.Some? && debTimer.value <= sm.clock.now {
            OnDebounceFire();
          }
        case Tick(d) => sm.Perform(Advance(d));
        case Inhibited(v) => sm.Perform(Inhibit(v));
        case Timer(k) => sm.Perform(Fire(k));
      }
    }
  }
}
