/** The threshold condition as an object driving a state machine. */
module ThresholdConditions {
  import opened Options
  import opened ConditionMachine
  import opened StateMachines
  import opened Thresholds

  class ThresholdCondition {
    const band: Band
    const debounce: int
    const sm: StateMachine
    var haveValue: bool
    var derived: bool
    var stableInput: bool
    var debTimer: Option<int>

    ghost function Snap(): Threshold
      reads this, sm, sm.clock
    {
      Threshold(band, debounce, sm.Snap(), haveValue, derived, stableInput, debTimer)
    }

    constructor (band: Band, debounce: int, sm: StateMachine)
      ensures this.band == band && this.debounce == debounce && this.sm == sm
      ensures Snap() == Threshold(band, debounce, sm.Snap(), false, false, false, None)
    {
      this.band := band;
      this.debounce := debounce;
      this.sm := sm;
      haveValue, derived, stableInput := false, false, false;
      debTimer := None;
    }

    method Start()
      modifies this, sm
      ensures Snap() == Thresholds.Start(old(Snap()))
    {
      sm.Bootstrap();
      if sm.b.startActive {
        derived := true;
        stableInput := true;
      }
    }

    method SubmitValue(value: real)
      modifies this, sm
      ensures Snap() == Thresholds.SubmitValue(old(Snap()), value)
    {
      var newDerived := DeriveLocked(value);
      haveValue := true;
      if newDerived == derived {
        return;
      }
      derived := newDerived;
      SubmitDerived(newDerived);
    }

    method DeriveLocked(value: real) returns (r: bool)
      ensures r == Derive(band, derived, value)
    {
      if band.high {
        if derived {
          if value < band.off {
            return false;
          }
          return true;
        }
        if value > band.on {
          return true;
        }
        return false;
      }
      if derived {
        if value > band.off {
          return false;
        }
        return true;
      }
      if value < band.on {
        return true;
      }
      r := false;
    }

    method SubmitDerived(value: bool)
      modifies this, sm
      ensures Snap() == Thresholds.SubmitDerived(old(Snap()), value)
    {
      if debounce <= 0 {
        if value == stableInput {
          return;
        }
        stableInput := value;
        sm.SetRawInput(value);
        return;
      }
      if value == stableInput {
        if debTimer.Some? {
          debTimer := None;
        }
        return;
      }
      debTimer := Some(sm.clock.now + debounce);
    }

    method OnDebounceFire()
      modifies this, sm
      ensures Snap() == Thresholds.OnDebounceFire(old(Snap()))
    {
      debTimer := None;
      if derived == stableInput {
        return;
      }
      stableInput := derived;
      sm.SetRawInput(stableInput);
    }

    method Clear(input: Option<real>)
      modifies this, sm
      ensures Snap() == ClearAll(old(Snap()), input)
    {
      debTimer := None;
      haveValue := false;
      derived := false;
      stableInput := false;
      sm.Clear();
      if input.None? {
        return;
      }
      var d := DeriveLocked(input.value);
      haveValue := true;
      derived := d;
      stableInput := d;
      if d {
        sm.SetRawInput(true);
      }
    }

    /** One step of a run, performed on the object. */
    method Perform(op: Op)
      modifies this, sm, sm.clock
      ensures Snap() == Thresholds.Step(old(Snap()), op)
    {
      match op {
        case Sample(v) => SubmitValue(v);
        case ClearInput(v) => Clear(v);
        case DebounceFire =>
          if debTimer.Some? && debTimer.value <= sm.clock.now {
            OnDebounceFire();
          }
        case Tick(d) => sm.Perform(Advance(d));
        case Inhibited(v) => sm.Perform(Inhibit(v));
        case Timer(k) => sm.Perform(Fire(k));
      }
    }
  }
}
