/** Exactly when the output of the condition machine rises and falls, and what
    its gate and its deadlines are, told from the history of a run. */
module MachineOutputs {
  import opened Options
  import opened ConditionMachine
  import opened MachineRuns

  // ----- boot -----

  /** A machine boots up exactly if it is configured to, with its input asserted
      and its latch engaged to match, and says nothing about it. */
  lemma BootsAsConfigured(b: Behavior, t0: int)
    ensures var m := Boot(b, t0);
            && Raised(m) == m.rawInput == b.startActive && Output(m) == (b.startActive != b.invert)
            && m.latched == (b.startActive && b.latch) && !m.inhibited && m.notes == [] && m.now == t0
  {
  }

  // ----- the gate -----

  /** The value of the last inhibit label, false if there is none. */
  function LastInhibit(ls: seq<Label>): bool {
    if ls == [] then false
    else if ls[|ls| - 1].Inhibit? then ls[|ls| - 1].inhibited
    else LastInhibit(ls[..|ls| - 1])
  }

  lemma StepInhibited(m: Machine, l: Label)
    ensures Step(m, l).inhibited == if l.Inhibit? then l.inhibited else m.inhibited
  {
    if l.Fire? { CallbackInhibited(Spend(m, l.k), l.k); }
  }

  lemma CallbackInhibited(m: Machine, k: Kind)
    ensures Callback(m, k).inhibited == m.inhibited
  {
  }

  lemma {:induction false} GateFromHistory(b: Behavior, t0: int, ls: seq<Label>)
    ensures Run(Boot(b, t0), ls).inhibited == LastInhibit(ls)
  {
    if ls != [] {
      GateFromHistory(b, t0, ls[..|ls| - 1]);
      StepInhibited(Run(Boot(b, t0), ls[..|ls| - 1]), ls[|ls| - 1]);
    }
  }

  // ----- rises -----

  /** Nothing holds a new activation back. */
  predicate GatesOpen(m: Machine) {
    !m.inhibited && (m.cooldownUntil.Some? ==> m.cooldownUntil.value <= m.now)
  }

  /** Whether a step raises a lowered output, from the state before it. */
  predicate Raises(m: Machine, l: Label) {
    match l
    case Raw(v) =>
      && v && !m.rawInput
      && (if m.state.Inactive? then GatesOpen(m) && m.b.activateAfter <= 0
          else m.b.activateAfter <= m.retAccumulated)
    case Inhibit(v) =>
      && !v && m.inhibited && m.state.Inactive? && m.rawInput && m.b.activateAfter <= 0
      && (m.cooldownUntil.Some? ==> m.cooldownUntil.value <= m.now)
    case Fire(Activate) => m.state.PendingActivation? && Due(m.pendingTimer, m.now)
    case Fire(Cooldown) =>
      m.state.Inactive? && m.rawInput && !m.inhibited && m.b.activateAfter <= 0 && Due(m.cooldownTimer, m.now)
    case _ => false
  }

  lemma RawRaisesIff(m: Machine, v: bool)
    requires Inv(m) && !Raised(m)
    ensures Raised(SetRawInput(m, v)) <==> Raises(m, Raw(v))
  {
  }

  lemma InhibitRaisesIff(m: Machine, v: bool)
    requires Inv(m) && !Raised(m)
    ensures Raised(SetInhibited(m, v)) <==> Raises(m, Inhibit(v))
  {
  }

  lemma FireRaisesIff(m: Machine, k: Kind)
    requires Inv(m) && !Raised(m)
    ensures Raised(FireTimer(m, k)) <==> Raises(m, Fire(k))
  {
  }

  lemma StepRaisesIff(m: Machine, l: Label)
    requires Inv(m) && !Raised(m)
    ensures Raised(Step(m, l)) <==> Raises(m, l)
  {
    match l
    case Raw(v) => RawRaisesIff(m, v);
    case Inhibit(v) => InhibitRaisesIff(m, v);
    case Fire(k) => FireRaisesIff(m, k);
    case _ =>
  }

  /** In every run a step raises the output exactly when it should. */
  lemma {:induction false} OutputRisesIff(b: Behavior, t0: int, ls: seq<Label>, l: Label)
    requires !Raised(Run(Boot(b, t0), ls))
    ensures Raised(Step(Run(Boot(b, t0), ls), l)) <==> Raises(Run(Boot(b, t0), ls), l)
  {
    RunKeepsInv(b, t0, ls);
    StepRaisesIff(Run(Boot(b, t0), ls), l);
  }

  /** Inhibition stops every activation: while the last inhibit label was true,
      only its release can raise a lowered output. */
  lemma {:induction false} InhibitionHolds(b: Behavior, t0: int, ls: seq<Label>, l: Label)
    requires LastInhibit(ls) && l != Inhibit(false) && !Raised(Run(Boot(b, t0), ls))
    ensures !Raised(Step(Run(Boot(b, t0), ls), l))
  {
    GateFromHistory(b, t0, ls);
    OutputRisesIff(b, t0, ls, l);
    RunKeepsInv(b, t0, ls);
  }

  // ----- falls -----

  /** Whether a step lowers a raised output, from the state before it. */
  predicate Lowers(m: Machine, l: Label) {
    match l
    case Reset => true
    case Raw(v) => m.state.Active? && !m.b.latch && m.rawInput && !v && m.b.deactivateAfter <= 0
    case Fire(Deactivate) => m.state.PendingDeactivation? && Due(m.pendingTimer, m.now)
    case Fire(Timeout) => m.state.Active? && Due(m.timeoutTimer, m.now)
    case _ => false
  }

  lemma FireLowersIff(m: Machine, k: Kind)
    requires Inv(m) && Raised(m)
    ensures !Raised(FireTimer(m, k)) <==> Lowers(m, Fire(k))
  {
  }

  lemma StepLowersIff(m: Machine, l: Label)
    requires Inv(m) && Raised(m)
    ensures !Raised(Step(m, l)) <==> Lowers(m, l)
  {
    match l
    case Fire(k) => FireLowersIff(m, k);
    case _ =>
  }

  /** In every run a step lowers the output exactly when it should. */
  lemma {:induction false} OutputFallsIff(b: Behavior, t0: int, ls: seq<Label>, l: Label)
    requires Raised(Run(Boot(b, t0), ls))
    ensures !Raised(Step(Run(Boot(b, t0), ls), l)) <==> Lowers(Run(Boot(b, t0), ls), l)
  {
    RunKeepsInv(b, t0, ls);
    StepLowersIff(Run(Boot(b, t0), ls), l);
  }

  // ----- the quiet period -----

  /** The end of the quiet period: `cooldown` after the last natural fall, until
      the timer set for it has run. */
  function QuietUntil(b: Behavior, t0: int, ls: seq<Label>): Option<int> {
    if ls == [] then None
    else
      var p, l := ls[..|ls| - 1], ls[|ls| - 1];
      var m := Run(Boot(b, t0), p);
      var before := QuietUntil(b, t0, p);
      if b.cooldown > 0 && !l.Reset? && Raised(m) && !Raised(Step(m, l)) then Some(m.now + b.cooldown)
      else if l == Fire(Cooldown) && before.Some? && before.value <= m.now then None
      else before
  }

  predicate Falls(m: Machine, l: Label) {
    !l.Reset? && Raised(m) && !Raised(Step(m, l))
  }

  lemma RawQuiet(m: Machine, v: bool)
    requires Inv(m)
    ensures SetRawInput(m, v).cooldownUntil ==
            if m.b.cooldown > 0 && Raised(m) && !Raised(SetRawInput(m, v)) then Some(m.now + m.b.cooldown)
            else m.cooldownUntil
  {
  }

  lemma FallQuiet(m: Machine, k: Kind)
    requires Inv(m) && (k.Deactivate? || k.Timeout?)
    ensures FireTimer(m, k).cooldownUntil ==
            if m.b.cooldown > 0 && Raised(m) && !Raised(FireTimer(m, k)) then Some(m.now + m.b.cooldown)
            else m.cooldownUntil
  {
  }

  lemma RiseQuiet(m: Machine, k: Kind)
    requires Inv(m) && (k.Activate? || k.Cooldown?)
    ensures Raised(m) ==> Raised(FireTimer(m, k))
    ensures FireTimer(m, k).cooldownUntil ==
            if k.Cooldown? && Due(m.cooldownTimer, m.now) then None else m.cooldownUntil
  {
  }

  lemma FireQuiet(m: Machine, k: Kind)
    requires Inv(m)
    ensures FireTimer(m, k).cooldownUntil ==
            if m.b.cooldown > 0 && Raised(m) && !Raised(FireTimer(m, k)) then Some(m.now + m.b.cooldown)
            else if k.Cooldown? && Due(m.cooldownTimer, m.now) then None
            else m.cooldownUntil
  {
    if k.Deactivate? || k.Timeout? { FallQuiet(m, k); } else { RiseQuiet(m, k); }
  }

  /** In every run the quiet period ends exactly `cooldown` after the last
      natural fall, and its timer is set for exactly then. */
  lemma {:induction false} QuietFromHistory(b: Behavior, t0: int, ls: seq<Label>)
    ensures var m := Run(Boot(b, t0), ls);
            && m.cooldownUntil == QuietUntil(b, t0, ls)
            && m.cooldownTimer == if m.cooldownUntil.Some? then Live(Cooldown, m.cooldownUntil.value) else Nil
  {
    RunKeepsInv(b, t0, ls);
    if ls != [] {
      var p, l := ls[..|ls| - 1], ls[|ls| - 1];
      QuietFromHistory(b, t0, p);
      RunKeepsInv(b, t0, p);
      QuietStep(Run(Boot(b, t0), p), l);
    }
  }

  lemma QuietStep(m: Machine, l: Label)
    requires Inv(m)
    ensures Step(m, l).cooldownUntil ==
            if m.b.cooldown > 0 && Falls(m, l) then Some(m.now + m.b.cooldown)
            else if l == Fire(Cooldown) && m.cooldownUntil.Some? && m.cooldownUntil.value <= m.now then None
            else m.cooldownUntil
  {
    match l
    case Raw(v) => RawQuiet(m, v);
    case Fire(k) => FireQuiet(m, k);
    case _ =>
  }

  // ----- the deactivation delay -----

  /** When the machine last began to wait for its deactivation. */
  function BeganFalling(m: Machine, ls: seq<Label>): int {
    if ls == [] then m.now
    else if Run(m, ls).state.PendingDeactivation? && !Run(m, ls[..|ls| - 1]).state.PendingDeactivation?
    then Run(m, ls).now
    else BeganFalling(m, ls[..|ls| - 1])
  }

  lemma RawDelays(m: Machine, v: bool)
    requires Inv(m) && SetRawInput(m, v).state.PendingDeactivation?
    ensures SetRawInput(m, v).pendingTimer ==
            if m.state.PendingDeactivation? then m.pendingTimer else Live(Deactivate, m.now + m.b.deactivateAfter)
  {
  }

  lemma FireDelays(m: Machine, k: Kind)
    requires Inv(m) && FireTimer(m, k).state.PendingDeactivation?
    ensures m.state.PendingDeactivation? && FireTimer(m, k).pendingTimer == m.pendingTimer
  {
  }

  lemma StepDelays(m: Machine, l: Label)
    requires Inv(m) && Step(m, l).state.PendingDeactivation?
    ensures Step(m, l).pendingTimer ==
            if m.state.PendingDeactivation? then m.pendingTimer else Live(Deactivate, m.now + m.b.deactivateAfter)
    ensures !m.state.PendingDeactivation? ==> Step(m, l).now == m.now
  {
    StepKeeps(m, l);
    match l
    case Raw(v) => RawDelays(m, v);
    case Fire(k) => FireDelays(m, k);
    case _ =>
  }

  /** Whatever else is configured, a pending deactivation is due exactly
      `deactivate_after` after it began. */
  lemma {:induction false} DeactivationIsDue(b: Behavior, t0: int, ls: seq<Label>)
    ensures var m := Run(Boot(b, t0), ls);
            m.state.PendingDeactivation? ==>
              !m.rawInput && m.pendingTimer == Live(Deactivate, BeganFalling(Boot(b, t0), ls) + b.deactivateAfter)
  {
    RunKeepsInv(b, t0, ls);
    if ls != [] && Run(Boot(b, t0), ls).state.PendingDeactivation? {
      var p := ls[..|ls| - 1];
      DeactivationIsDue(b, t0, p);
      RunKeepsInv(b, t0, p);
      StepDelays(Run(Boot(b, t0), p), ls[|ls| - 1]);
    }
  }

  // ----- the input -----

  /** In every run the input is the last one set, unless a clear or a timeout
      that lowered the output has withdrawn it since. */
  function InputFromHistory(b: Behavior, t0: int, ls: seq<Label>): bool {
    if ls == [] then b.startActive
    else
      var p, l := ls[..|ls| - 1], ls[|ls| - 1];
      match l
      case Raw(v) => v
      case Reset => false
      case Fire(Timeout) => InputFromHistory(b, t0, p) && Raised(Run(Boot(b, t0), ls)) == Raised(Run(Boot(b, t0), p))
      case _ => InputFromHistory(b, t0, p)
  }

  lemma StepInput(m: Machine, l: Label)
    requires Inv(m)
    ensures Step(m, l).rawInput ==
            match l
            case Raw(v) => v
            case Reset => false
            case Fire(Timeout) => m.rawInput && Raised(Step(m, l)) == Raised(m)
            case _ => m.rawInput
  {
    if l.Fire? { FireInput(m, l.k); }
  }

  lemma FireInput(m: Machine, k: Kind)
    requires Inv(m)
    ensures FireTimer(m, k).rawInput == (m.rawInput && (k.Timeout? ==> Raised(FireTimer(m, k)) == Raised(m)))
  {
  }

  lemma {:induction false} InputFollowsHistory(b: Behavior, t0: int, ls: seq<Label>)
    ensures Run(Boot(b, t0), ls).rawInput == InputFromHistory(b, t0, ls)
  {
    if ls != [] {
      var p := ls[..|ls| - 1];
      InputFollowsHistory(b, t0, p);
      RunKeepsInv(b, t0, p);
      StepInput(Run(Boot(b, t0), p), ls[|ls| - 1]);
    }
  }
}
