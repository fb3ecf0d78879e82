/** The counter condition as an object driving a state machine. */
module CounterConditions {
  import opened Options
  import opened ConditionMachine
  import opened StateMachines
  import opened Counters

  class CounterCondition {
    const cfg: Config
    const sm: StateMachine
    var count: int
    var events: seq<int>
    var expiryTimer: Option<int>

    /** The counter and its machine as a value. */
    ghost function Snap(): Counter
      reads this, sm, sm.clock
    {
      Counter(cfg, sm.Snap(), count, events, expiryTimer)
    }

    constructor (cfg: Config, sm: StateMachine)
      ensures this.cfg == cfg && this.sm == sm
      ensures Snap() == Counter(cfg, sm.Snap(), cfg.initial, [], None)
    {
      this.cfg := cfg;
      this.sm := sm;
      count := cfg.initial;
      events := [];
      expiryTimer := None;
    }

    method Start()
      modifies this, sm
      ensures Snap() == Counters.Start(old(Snap()))
    {
      sm.Bootstrap();
      ApplyDelta(0);
    }

    method ApplyDelta(delta: int)
      modifies this, sm
      ensures Snap() == Counters.ApplyDelta(old(Snap()), delta)
    {
      if cfg.window > 0 {
        ApplyWindowedDelta(delta);
        return;
      }
      count := count + delta;
      if count < 0 {
        count := 0;
      }
      var matched := MatchedLocked();
      if !matched {
        sm.SetRawInput(false);
        return;
      }
      sm.SetRawInput(true);
      if !cfg.rollover {
        return;
      }
      count := cfg.initial;
      var stillMatched := MatchedLocked();
      if !stillMatched {
        sm.SetRawInput(false);
      }
    }

    method ApplyWindowedDelta(delta: int)
      requires cfg.window > 0
      modifies this, sm
      ensures Snap() == Counters.ApplyWindowedDelta(old(Snap()), delta)
    {
      var now := sm.clock.now;
      PruneLocked(now);
      if delta > 0 {
        Append(now, delta);
      } else if delta < 0 {
        var pop := -delta;
        if pop > |events| {
          pop := |events|;
        }
        events := events[pop..];
      }
      count := |events|;
      ArmExpiryLocked(now);
      var matched := MatchedLocked();
      sm.SetRawInput(matched);
    }

    method Append(now: int, n: nat)
      modifies this`events
      ensures events == old(events) + Repeat(now, n)
    {
      for i := 0 to n
        invariant events == old(events) + Repeat(now, i)
      {
        events := events + [now];
        assert Repeat(now, i + 1) == Repeat(now, i) + [now];
      }
    }

    method PruneLocked(now: int)
      requires now == sm.clock.now
      modifies this`events, this`count
      ensures Snap() == Prune(old(Snap()))
    {
      if cfg.window <= 0 {
        return;
      }
      var cutoff := now - cfg.window;
      var drop := 0;
      while drop < |events| && events[drop] <= cutoff
        invariant drop <= |events|
        invariant Expired(events, cutoff) == drop + Expired(events[drop..], cutoff)
      {
        assert events[drop..][1..] == events[drop + 1..];
        drop := drop + 1;
      }
      if drop == 0 {
        return;
      }
      if drop == |events| {
        events := [];
      } else {
        events := events[drop..];
      }
      count := |events|;
    }

    method ArmExpiryLocked(now: int)
      requires now == sm.clock.now
      modifies this`expiryTimer
      ensures Snap() == ArmExpiry(old(Snap()))
    {
      expiryTimer := None;
      if |events| == 0 {
        return;
      }
      var delay := events[0] + cfg.window - now;
      if delay < 0 {
        delay := 0;
      }
      expiryTimer := Some(now + delay);
    }

    /** The callback of the expiry timer, which has just fired. */
    method OnWindowExpire()
      modifies this, sm
      ensures Snap() == Counters.OnWindowExpire(old(Snap()))
    {
      var now := sm.clock.now;
      expiryTimer := None;
      PruneLocked(now);
      ArmExpiryLocked(now);
      var matched := MatchedLocked();
      sm.SetRawInput(matched);
    }

    method MatchedLocked() returns (r: bool)
      ensures r == Matched(Snap())
    {
      if cfg.countDown {
        return count <= cfg.preset;
      }
      r := count >= cfg.preset;
    }

    method Count() returns (n: int)
      modifies this`events, this`count
      ensures Snap() == Counters.Count(old(Snap())) && n == count
    {
      if cfg.window > 0 && |events| > 0 {
        PruneLocked(sm.clock.now);
      }
      n := count;
    }

    method Reset()
      modifies this, sm
      ensures Snap() == Counters.Reset(old(Snap()))
    {
      count := cfg.initial;
      events := [];
      expiryTimer := None;
      sm.Clear();
    }

    /** Adds `delta` and returns the count, pruned as a read would. */
    method Increment(delta: int) returns (n: int)
      modifies this, sm
      ensures Snap() == Counters.Count(Counters.ApplyDelta(old(Snap()), delta)) && n == count
    {
      ApplyDelta(delta);
      n := Count();
    }

    /** One step of a run, performed on the object. */
    method Perform(op: Op)
      modifies this, sm, sm.clock
      ensures Snap() == Counters.Step(old(Snap()), op)
    {
      match op {
        case Delta(delta) => ApplyDelta(delta);
        case ReadCount => var _ := Count();
        case ResetCount => Reset();
        case Expire =>
          if expiryTimer.Some? && expiryTimer.value <= sm.clock.now {
            OnWindowExpire();
          }
        case Tick(d) => sm.Perform(Advance(d));
        case Inhibited(v) => sm.Perform(Inhibit(v));
        case Timer(k) => sm.Perform(Fire(k));
      }
    }
  }
}
