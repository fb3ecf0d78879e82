/** The flipflop condition as an object driving a state machine. Wire
    expressions are evaluated elsewhere; their values arrive as `env`. */
module FlipflopConditions {
  import opened Options
  import opened ConditionMachine
  import opened StateMachines
  import opened Flipflops

  class FlipflopCondition {
    const sm: StateMachine
    const hasSetFrom: bool
    const dominantSet: bool
    var setWire: Option<Wire>
    var resetWire: Option<Wire>
    var toggleWire: Option<Wire>
    var gateWire: Option<Wire>
    var desired: bool
    var gateAsserting: bool

    ghost function Snap(): Flipflop
      reads this, sm, sm.clock
    {
      Flipflop(setWire, resetWire, toggleWire, gateWire, hasSetFrom, dominantSet, desired, gateAsserting, sm.Snap())
    }

    constructor (w: Wiring, sm: StateMachine)
      ensures this.sm == sm
      ensures Snap() == Flipflop(Fresh(w.setOn), Fresh(w.resetOn), Fresh(w.toggleOn), Fresh(w.gateOn),
                                 w.hasSetFrom, w.dominantSet, false, false, sm.Snap())
    {
      this.sm := sm;
      hasSetFrom, dominantSet := w.hasSetFrom, w.dominantSet;
      setWire, resetWire, toggleWire, gateWire := Fresh(w.setOn), Fresh(w.resetOn), Fresh(w.toggleOn), Fresh(w.gateOn);
      desired, gateAsserting := false, false;
    }

    method Start(env: Levels)
      modifies this, sm
      ensures Snap() == Flipflops.Start(old(Snap()), env)
    {
      sm.Bootstrap();
      if sm.b.startActive {
        desired := true;
      }
      setWire := Baseline(setWire, env.setOn);
      resetWire := Baseline(resetWire, env.resetOn);
      toggleWire := Baseline(toggleWire, env.toggleOn);
      if gateWire.Some? && env.gateOn.Some? && IsLevel(gateWire.value.mode) {
        gateAsserting := env.gateOn.value;
        if gateWire.value.mode.Low? {
          gateAsserting := !env.gateOn.value;
        }
      }
      gateWire := Baseline(gateWire, env.gateOn);
    }

    static method Baseline(w: Option<Wire>, v: Option<bool>) returns (r: Option<Wire>)
      ensures r == Rebase(w, v)
    {
      r := w;
      if w.Some? && v.Some? {
        r := Some(Wire(w.value.mode, v.value, true));
      }
    }

    method Set(v: bool)
      modifies this, sm
      ensures Snap() == SetTo(old(Snap()), v)
    {
      ReconcileDesiredLocked();
      desired := v;
      sm.SetRawInput(v);
    }

    method Toggle() returns (newVal: bool)
      modifies this, sm
      ensures Snap() == Flipflops.Toggle(old(Snap())) && newVal == desired
    {
      ReconcileDesiredLocked();
      newVal := !desired;
      desired := newVal;
      sm.SetRawInput(newVal);
    }

    method Clear()
      modifies this, sm
      ensures Snap() == ClearAll(old(Snap()))
    {
      desired := false;
      sm.Clear();
    }

    method ReconcileDesiredLocked()
      modifies this`desired
      ensures Snap() == Reconcile(old(Snap()))
    {
      var smRaw := sm.RawInput();
      if smRaw != desired {
        desired := smRaw;
      }
    }

    method OnSourceChanged(s: Feeds, env: Levels)
      modifies this, sm
      ensures Snap() == Flipflops.OnSourceChanged(old(Snap()), s, env)
    {
      ReconcileDesiredLocked();
      var newDesired, changed := RecomputeLocked(s, env);
      if !changed {
        return;
      }
      desired := newDesired;
      sm.SetRawInput(newDesired);
    }

    method RecomputeLocked(s: Feeds, env: Levels) returns (newDesired: bool, changed: bool)
      modifies this`gateAsserting, this`gateWire, this`setWire, this`resetWire, this`toggleWire
      ensures Snap() == Rebased(old(Snap()), s, env)
      ensures newDesired == NewDesired(old(Snap()), s, env) && changed == (newDesired != desired)
    {
      // 1. to 4. The gate, the sampled input and the event edges.
      var sampled, setFired, resetFired, toggleFired := EvaluateLocked(s, env);

      // 5. Dominance.
      newDesired := Dominate(sampled, setFired, resetFired, toggleFired);
      changed := newDesired != desired;
    }

    /** The sampled output and the edges that fall in the window. */
    method EvaluateLocked(s: Feeds, env: Levels)
      returns (sampled: bool, setFired: bool, resetFired: bool, toggleFired: bool)
      modifies this`gateAsserting, this`gateWire, this`setWire, this`resetWire, this`toggleWire
      ensures sampled == Sampled(old(Snap()), s, env)
      ensures var open := GateWindow(old(Snap()), s, env).open;
              && setFired == (open && s.setOn && FiredFor(old(setWire), env.setOn))
              && resetFired == (open && s.resetOn && FiredFor(old(resetWire), env.resetOn))
              && toggleFired == (open && s.toggleOn && FiredFor(old(toggleWire), env.toggleOn))
      ensures gateAsserting == GateWindow(old(Snap()), s, env).gateAsserting
      ensures gateWire == if s.gateOn then Rebase(old(gateWire), env.gateOn) else old(gateWire)
      ensures setWire == if s.setOn then Rebase(old(setWire), env.setOn) else old(setWire)
      ensures resetWire == if s.resetOn then Rebase(old(resetWire), env.resetOn) else old(resetWire)
      ensures toggleWire == if s.toggleOn then Rebase(old(toggleWire), env.toggleOn) else old(toggleWire)
    {
      var gateOpen;
      gateOpen, sampled := WindowLocked(s, env);
      setFired, resetFired, toggleFired := EventsLocked(s, env);
      if !gateOpen {
        setFired, resetFired, toggleFired := false, false, false;
      }
    }

    method WindowLocked(s: Feeds, env: Levels) returns (gateOpen: bool, sampled: bool)
      modifies this`gateAsserting, this`gateWire
      ensures gateOpen == GateWindow(old(Snap()), s, env).open && sampled == Sampled(old(Snap()), s, env)
      ensures gateAsserting == GateWindow(old(Snap()), s, env).gateAsserting
      ensures gateWire == if s.gateOn then Rebase(old(gateWire), env.gateOn) else old(gateWire)
    {
      var sample;
      gateOpen, sample := GateLocked(s, env);
      sampled := desired;
      if hasSetFrom && sample {
        if env.setFrom.Some? {
          sampled := env.setFrom.value;
        }
      }
    }

    method EventsLocked(s: Feeds, env: Levels) returns (setFired: bool, resetFired: bool, toggleFired: bool)
      modifies this`setWire, this`resetWire, this`toggleWire
      ensures setFired == (s.setOn && FiredFor(old(setWire), env.setOn))
      ensures resetFired == (s.resetOn && FiredFor(old(resetWire), env.resetOn))
      ensures toggleFired == (s.toggleOn && FiredFor(old(toggleWire), env.toggleOn))
      ensures setWire == if s.setOn then Rebase(old(setWire), env.setOn) else old(setWire)
      ensures resetWire == if s.resetOn then Rebase(old(resetWire), env.resetOn) else old(resetWire)
      ensures toggleWire == if s.toggleOn then Rebase(old(toggleWire), env.toggleOn) else old(toggleWire)
    {
      setFired, resetFired, toggleFired := false, false, false;
      if s.setOn {
        setFired := EdgeFiredFor(setWire, env.setOn);
        setWire := Baseline(setWire, env.setOn);
      }
      if s.resetOn {
        resetFired := EdgeFiredFor(resetWire, env.resetOn);
        resetWire := Baseline(resetWire, env.resetOn);
      }
      if s.toggleOn {
        toggleFired := EdgeFiredFor(toggleWire, env.toggleOn);
        toggleWire := Baseline(toggleWire, env.toggleOn);
      }
    }

    method Dominate(sampled: bool, setFired: bool, resetFired: bool, toggleFired: bool) returns (r: bool)
      ensures r == Resolve(sampled, dominantSet, setFired, resetFired, toggleFired)
    {
      r := sampled;
      if setFired && resetFired {
        r := dominantSet;
      } else if setFired {
        r := true;
      } else if resetFired {
        r := false;
      }
      if !setFired && !resetFired && toggleFired {
        r := !r;
      }
    }

    method GateLocked(s: Feeds, env: Levels) returns (gateOpen: bool, sample: bool)
      modifies this`gateAsserting, this`gateWire
      ensures var g := GateWindow(old(Snap()), s, env);
              gateOpen == g.open && sample == g.sample && gateAsserting == g.gateAsserting
      ensures gateWire == if s.gateOn then Rebase(old(gateWire), env.gateOn) else old(gateWire)
    {
      var gateEdgeFiredNow, gateJustAsserted := false, false;
      if gateWire.Some? && s.gateOn && env.gateOn.Some? {
        var w, gv := gateWire.value, env.gateOn.value;
        if IsLevel(w.mode) {
          var asserting := gv;
          if w.mode.Low? {
            asserting := !gv;
          }
          if w.hasPrev {
            var prevAssert := w.prev;
            if w.mode.Low? {
              prevAssert := !w.prev;
            }
            gateJustAsserted := asserting && !prevAssert;
          }
          gateAsserting := asserting;
        } else if w.hasPrev {
          gateEdgeFiredNow := EdgeFired(w.prev, gv, w.mode);
        }
        gateWire := Some(w.(prev := gv, hasPrev := true));
      }
      gateOpen := true;
      var levelGate := false;
      if gateWire.Some? {
        if IsLevel(gateWire.value.mode) {
          levelGate := true;
          gateOpen := gateAsserting;
        } else {
          gateOpen := gateEdgeFiredNow;
        }
      }
      sample := if levelGate then gateAsserting && (s.setFrom || gateJustAsserted) else gateEdgeFiredNow;
    }

    static method EdgeFiredFor(w: Option<Wire>, cur: Option<bool>) returns (fired: bool)
      ensures fired == FiredFor(w, cur)
    {
      if w.None? {
        return false;
      }
      if cur.None? {
        return false;
      }
      fired := w.value.hasPrev && EdgeFired(w.value.prev, cur.value, w.value.mode);
    }

    /** One step of a run, performed on the object. */
    method Perform(op: Op)
      modifies this, sm, sm.clock
      ensures Snap() == Flipflops.Step(old(Snap()), op)
    {
      match op {
        case Notify(s, env) => OnSourceChanged(s, env);
        case SetOp(v) => Set(v);
        case ToggleOp => var _ := Toggle();
        case ClearOp => Clear();
        case Tick(d) => sm.Perform(Advance(d));
        case Inhibited(v) => sm.Perform(Inhibit(v));
        case Timer(k) => sm.Perform(Fire(k));
      }
    }
  }
}
