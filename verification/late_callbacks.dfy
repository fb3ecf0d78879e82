/** Go's `Timer.Stop` cannot recall a callback that has already been launched
    and is waiting for the machine's lock. Here a timer that is stopped once its
    deadline has passed may still run its callback at any later moment, and so
    may, from its deadline on, a timer whose field a late callback of another
    timer has emptied without stopping it. The latch and the watcher
    notifications survive this; the cooldown survives it exactly when the state
    left behind by the fall says so. */
module LateCallbacks {
  import opened Options
  import opened ConditionMachine
  import opened MachineRuns

  datatype LateLabel = Prompted(l: Label) | Late(i: nat)

  /** A timer no field holds any more, whose callback has not run. */
  datatype Stray = Stray(kind: Kind, at: int)

  datatype Haunted = Haunted(m: Machine, strays: seq<Stray>)

  /** What is left of a timer that leaves its field at `now`. */
  function LeftBehind(before: Timer, after: Timer, now: int, stopped: bool): seq<Stray> {
    if !before.Live? || after == before || (stopped && now < before.at) then []
    else [Stray(before.kind, before.at)]
  }

  /** The strays of a step from `m` to `n`. Timers are stopped when they leave
      their field, except where a pending timer is replaced and where a callback
      of kind `own` empties its own kind's field. */
  function Strays(m: Machine, n: Machine, own: Option<Kind>): seq<Stray> {
    var pendingOwn := own == Some(Activate) || own == Some(Deactivate);
    LeftBehind(m.pendingTimer, n.pendingTimer, m.now, n.pendingTimer.Nil? && !pendingOwn)
    + LeftBehind(m.timeoutTimer, n.timeoutTimer, m.now, own != Some(Timeout))
    + LeftBehind(m.cooldownTimer, n.cooldownTimer, m.now, own != Some(Cooldown))
  }

  function Remove(strays: seq<Stray>, i: nat): seq<Stray>
    requires i < |strays|
  {
    strays[..i] + strays[i + 1..]
  }

  function LateStep(h: Haunted, l: LateLabel): Haunted {
    match l
    case Prompted(l) =>
      var n := Step(h.m, l);
      Haunted(n, h.strays + Strays(if l.Fire? && n != h.m then Spend(h.m, l.k) else h.m, n, None))
    case Late(i) =>
      if i >= |h.strays| || h.strays[i].at > h.m.now then h
      else
        var k := h.strays[i].kind;
        Haunted(Callback(h.m, k), Remove(h.strays, i) + Strays(h.m, Callback(h.m, k), Some(k)))
  }

  function RunFrom(h: Haunted, ls: seq<LateLabel>): Haunted {
    if ls == [] then h else LateStep(RunFrom(h, ls[..|ls| - 1]), ls[|ls| - 1])
  }

  function LateRun(b: Behavior, t0: int, ls: seq<LateLabel>): Haunted {
    RunFrom(Haunted(Boot(b, t0), []), ls)
  }

  /** Every step is a step or a callback of the machine. */
  lemma LateStepNotifies(h: Haunted, l: LateLabel)
    ensures Notified(h.m, LateStep(h, l).m)
  {
    match l
    case Prompted(l) => StepNotifies(h.m, l);
    case Late(i) => if i < |h.strays| { CallbackNotifies(h.m, h.strays[i].kind); }
  }

  /** Watchers replay to the current output in these runs too. */
  lemma {:induction false} LateWatcherReplay(b: Behavior, t0: int, ls: seq<LateLabel>)
    ensures var m := LateRun(b, t0, ls).m;
            m.b == b && Chain(m.notes, Output(Boot(b, t0)), Output(m))
  {
    if ls != [] {
      var h := LateRun(b, t0, ls[..|ls| - 1]);
      LateWatcherReplay(b, t0, ls[..|ls| - 1]);
      LateStepNotifies(h, ls[|ls| - 1]);
      ChainExtends(h.m, LateStep(h, ls[|ls| - 1]).m, Output(Boot(b, t0)));
    }
  }

  // ----- the latch -----

  predicate LatchSafe(m: Machine) {
    && (m.state.Active? <==> m.latched)
    && !m.state.PendingDeactivation?
    && !m.timeoutTimer.Live?
    && (m.pendingTimer.Live? ==> m.pendingTimer.kind.Activate?)
    && (m.cooldownTimer.Live? ==> m.cooldownTimer.kind.Cooldown?)
  }

  predicate Harmless(strays: seq<Stray>) {
    forall i :: 0 <= i < |strays| ==> strays[i].kind.Activate? || strays[i].kind.Cooldown?
  }

  /** What a latched machine and its strays keep. */
  predicate LatchGuarded(h: Haunted) {
    h.m.b.latch && LatchSafe(h.m) && Harmless(h.strays)
  }

  lemma CallbackKeepsLatch(m: Machine, k: Kind)
    requires m.b.latch && LatchSafe(m) && (k.Activate? || k.Cooldown?)
    ensures LatchSafe(Callback(m, k)) && (Raised(m) ==> Raised(Callback(m, k)))
  {
  }

  lemma StepKeepsLatch(m: Machine, l: Label)
    requires m.b.latch && LatchSafe(m)
    ensures LatchSafe(Step(m, l))
    ensures Raised(m) && !l.Reset? ==> Raised(Step(m, l))
  {
    match l
    case Fire(k) => if k.Activate? || k.Cooldown? { CallbackKeepsLatch(Spend(m, k), k); }
    case _ =>
  }

  lemma StraysHarmless(m: Machine, n: Machine, own: Option<Kind>)
    requires LatchSafe(m)
    ensures Harmless(Strays(m, n, own))
  {
  }

  lemma LateStepKeepsLatch(h: Haunted, l: LateLabel)
    requires LatchGuarded(h)
    ensures var n := LateStep(h, l);
            n.m.b == h.m.b && LatchGuarded(n) && (Raised(h.m) && !Raised(n.m) ==> l == Prompted(Reset))
  {
    LateStepNotifies(h, l);
    match l
    case Prompted(l) =>
      StepKeepsLatch(h.m, l);
      var n := Step(h.m, l);
      StraysHarmless(if l.Fire? && n != h.m then Spend(h.m, l.k) else h.m, n, None);
    case Late(i) =>
      if i < |h.strays| {
        CallbackKeepsLatch(h.m, h.strays[i].kind);
        StraysHarmless(h.m, Callback(h.m, h.strays[i].kind), Some(h.strays[i].kind));
      }
  }

  lemma {:induction false} LateRunKeepsLatch(b: Behavior, t0: int, ls: seq<LateLabel>)
    requires b.latch
    ensures LatchGuarded(LateRun(b, t0, ls)) && LateRun(b, t0, ls).m.b == b
  {
    if ls != [] {
      LateRunKeepsLatch(b, t0, ls[..|ls| - 1]);
      LateStepKeepsLatch(LateRun(b, t0, ls[..|ls| - 1]), ls[|ls| - 1]);
    }
  }

  /** With a latch the machine is active exactly while latched and never
      pending deactivation, and only a clear lowers the output, whichever
      stopped callbacks still run. */
  lemma {:induction false} LatchHolds(b: Behavior, t0: int, ls: seq<LateLabel>, l: LateLabel)
    requires b.latch
    ensures var h := LateRun(b, t0, ls);
            && (h.m.state.Active? <==> h.m.latched)
            && !h.m.state.PendingDeactivation?
            && (Raised(h.m) && !Raised(LateStep(h, l).m) ==> l == Prompted(Reset))
  {
    LateRunKeepsLatch(b, t0, ls);
    LateStepKeepsLatch(LateRun(b, t0, ls), l);
  }
}
