/** The cooldown when callbacks of stopped timers still run: the state just
    after a natural fall decides whether the output can rise again before the
    quiet period is over. */
module LateCooldown {
  import opened Options
  import opened ConditionMachine
  import opened MachineRuns
  import opened LateCallbacks

  // ----- what late runs keep -----

  /** A pending timer belongs to the pending state, the cooldown timer to the
      window, and accumulated time to a retentive pending episode. */
  predicate Tidy(m: Machine) {
    && (m.pendingTimer.Live? ==>
          if m.pendingTimer.kind.Activate? then m.state.PendingActivation?
          else m.pendingTimer.kind.Deactivate? && m.state.PendingDeactivation?)
    && (m.timeoutTimer.Live? ==> m.timeoutTimer.kind.Timeout?)
    && m.cooldownTimer == (if m.cooldownUntil.Some? then Live(Cooldown, m.cooldownUntil.value) else Nil)
    && (!m.state.PendingActivation? || !m.b.retentive ==> m.retAccumulated == 0)
  }

  lemma NotifyKeepsTidy(m: Machine, n: Machine)
    requires Tidy(n)
    ensures Tidy(Notify(m, n))
  {
  }

  lemma PendingCallbackKeepsTidy(m: Machine)
    requires Tidy(m)
    ensures Tidy(OnActivateTimer(m)) && Tidy(OnDeactivateTimer(m))
  {
  }

  lemma TimeoutKeepsTidy(m: Machine)
    requires Tidy(m)
    ensures Tidy(OnTimeoutTimer(m))
  {
  }

  lemma CooldownKeepsTidy(m: Machine)
    requires Tidy(m.(cooldownUntil := None, cooldownTimer := Nil))
    ensures Tidy(OnCooldownTimer(m))
  {
  }

  lemma CallbackKeepsTidy(m: Machine, k: Kind)
    requires Tidy(if k.Cooldown? then m.(cooldownUntil := None, cooldownTimer := Nil) else m)
    ensures Tidy(Callback(m, k))
  {
    match k
    case Timeout => TimeoutKeepsTidy(m);
    case Cooldown => CooldownKeepsTidy(m);
    case _ => PendingCallbackKeepsTidy(m);
  }

  lemma StepKeepsTidy(m: Machine, l: Label)
    requires Tidy(m)
    ensures Tidy(Step(m, l))
  {
    match l
    case Raw(v) => RawKeepsTidy(m, v);
    case Inhibit(v) => InhibitKeepsTidy(m, v);
    case Fire(k) => FireKeepsTidy(m, k);
    case _ =>
  }

  lemma RawKeepsTidy(m: Machine, v: bool)
    requires Tidy(m)
    ensures Tidy(SetRawInput(m, v))
  {
    var c := m.(rawInput := v);
    if m.state.Inactive? || m.state.PendingActivation? {
      LowInputKeepsTidy(c, v);
    } else {
      HighInputKeepsTidy(c, v);
    }
    NotifyKeepsTidy(m, OnInputChange(c, v));
  }

  lemma LowInputKeepsTidy(m: Machine, v: bool)
    requires Tidy(m) && (m.state.Inactive? || m.state.PendingActivation?)
    ensures Tidy(OnInputChange(m, v))
  {
  }

  lemma HighInputKeepsTidy(m: Machine, v: bool)
    requires Tidy(m) && (m.state.Active? || m.state.PendingDeactivation?)
    ensures Tidy(OnInputChange(m, v))
  {
  }

  lemma InhibitKeepsTidy(m: Machine, v: bool)
    requires Tidy(m)
    ensures Tidy(SetInhibited(m, v))
  {
  }

  lemma FireKeepsTidy(m: Machine, k: Kind)
    requires Tidy(m)
    ensures Tidy(FireTimer(m, k))
  {
    CallbackKeepsTidy(Spend(m, k), k);
  }

  lemma LateStepKeepsTidy(h: Haunted, l: LateLabel)
    requires Tidy(h.m)
    ensures Tidy(LateStep(h, l).m)
  {
    match l
    case Prompted(l) => StepKeepsTidy(h.m, l);
    case Late(i) => if i < |h.strays| { CallbackKeepsTidy(h.m, h.strays[i].kind); }
  }

  lemma {:induction false} LateRunKeepsTidy(b: Behavior, t0: int, ls: seq<LateLabel>)
    ensures Tidy(LateRun(b, t0, ls).m) && LateRun(b, t0, ls).m.b == b
  {
    LateWatcherReplay(b, t0, ls);
    if ls != [] {
      LateRunKeepsTidy(b, t0, ls[..|ls| - 1]);
      LateStepKeepsTidy(LateRun(b, t0, ls[..|ls| - 1]), ls[|ls| - 1]);
    }
  }

  lemma StepNow(m: Machine, l: Label)
    ensures Step(m, l).now == m.now + (if l.Advance? then l.d else 0)
  {
    if l.Fire? { CallbackNow(Spend(m, l.k), l.k); }
  }

  lemma CallbackNow(m: Machine, k: Kind)
    ensures Callback(m, k).now == m.now
  {
  }

  lemma LateNaturalFallIsQuiet(h: Haunted, l: LateLabel)
    requires l != Prompted(Reset) && Raised(h.m) && !Raised(LateStep(h, l).m)
    ensures Quiet(LateStep(h, l).m, h.m.now + h.m.b.cooldown) && LateStep(h, l).m.now == h.m.now
  {
    match l
    case Prompted(l) =>
      NaturalFallIsQuiet(h.m, l);
      StepNow(h.m, l);
    case Late(i) =>
      CallbackFallIsQuiet(h.m, h.strays[i].kind);
      CallbackNow(h.m, h.strays[i].kind);
  }

  lemma NaturalFallIsInactive(m: Machine, l: Label)
    requires Raised(m) && !Raised(Step(m, l))
    ensures Step(m, l).state.Inactive?
  {
    if l.Fire? { CallbackFallIsInactive(Spend(m, l.k), l.k); }
  }

  lemma CallbackFallIsInactive(m: Machine, k: Kind)
    requires Raised(m) && !Raised(Callback(m, k))
    ensures Callback(m, k).state.Inactive?
  {
  }

  lemma LateFallIsInactive(h: Haunted, l: LateLabel)
    requires Raised(h.m) && !Raised(LateStep(h, l).m)
    ensures LateStep(h, l).m.state.Inactive?
  {
    match l
    case Prompted(l) => NaturalFallIsInactive(h.m, l);
    case Late(i) => CallbackFallIsInactive(h.m, h.strays[i].kind);
  }

  // ----- no rise before `until` -----

  /** Nothing can end the window before `from`, and an activation begun then
      takes until `until`. */
  predicate TooShort(b: Behavior, from: int, until: int) {
    from <= until && (from < until ==> b.activateAfter > 0 && from + b.activateAfter >= until)
  }

  /** A pending episode that began no earlier than `from`. */
  predicate BegunSince(m: Machine, from: int, until: int) {
    && (m.pendingTimer.Live? ==> until <= m.pendingTimer.at)
    && (if m.retStartedAt.Some? then from <= m.retStartedAt.value - m.retAccumulated && m.retStartedAt.value <= m.now
        else from <= m.now - m.retAccumulated)
  }

  predicate Waits(m: Machine, from: int, until: int) {
    m.now < until ==>
      && !Raised(m)
      && (m.cooldownUntil.Some? ==> until <= m.cooldownUntil.value)
      && (m.now < from ==> m.state.Inactive? && m.cooldownUntil.Some?)
      && (m.state.PendingActivation? ==> BegunSince(m, from, until))
  }

  /** Strays that can neither end the window before `from` nor, if that is
      before `until`, an activation delay before `until`. */
  predicate StraysWait(strays: seq<Stray>, now: int, from: int, until: int) {
    forall i :: 0 <= i < |strays| ==>
      && (strays[i].kind.Cooldown? && now < from ==> from <= strays[i].at)
      && (strays[i].kind.Activate? && from < until ==> until <= strays[i].at)
  }

  predicate Sealed(h: Haunted, from: int, until: int) {
    && Tidy(h.m) && TooShort(h.m.b, from, until) && Waits(h.m, from, until)
    && (h.m.now < until ==> StraysWait(h.strays, h.m.now, from, until))
  }

  lemma RawWaits(m: Machine, v: bool, from: int, until: int)
    requires Tidy(m) && TooShort(m.b, from, until) && Waits(m, from, until)
    ensures Waits(SetRawInput(m, v), from, until)
  {
  }

  lemma InhibitWaits(m: Machine, v: bool, from: int, until: int)
    requires Tidy(m) && TooShort(m.b, from, until) && Waits(m, from, until)
    ensures Waits(SetInhibited(m, v), from, until)
  {
  }

  lemma CallbackWaits(m: Machine, k: Kind, from: int, until: int)
    requires Tidy(m) && TooShort(m.b, from, until) && Waits(m, from, until)
    requires m.now < until && k.Activate? ==> from == until
    requires m.now < until && k.Cooldown? ==> from <= m.now
    ensures Waits(Callback(m, k), from, until)
  {
  }

  lemma FireWaits(m: Machine, k: Kind, from: int, until: int)
    requires Tidy(m) && TooShort(m.b, from, until) && Waits(m, from, until)
    ensures Waits(FireTimer(m, k), from, until)
  {
  }

  lemma StepWaits(m: Machine, l: Label, from: int, until: int)
    requires Tidy(m) && TooShort(m.b, from, until) && Waits(m, from, until)
    ensures Waits(Step(m, l), from, until)
  {
    match l
    case Raw(v) => RawWaits(m, v, from, until);
    case Inhibit(v) => InhibitWaits(m, v, from, until);
    case Fire(k) => FireWaits(m, k, from, until);
    case _ =>
  }

  predicate TimersWait(m: Machine, from: int, until: int) {
    && (m.pendingTimer.Live? ==>
          && !m.pendingTimer.kind.Cooldown?
          && (m.pendingTimer.kind.Activate? && from < until ==> until <= m.pendingTimer.at))
    && (m.timeoutTimer.Live? ==> m.timeoutTimer.kind.Timeout?)
    && (m.cooldownTimer.Live? ==> m.cooldownTimer.kind.Cooldown? && from <= m.cooldownTimer.at)
  }

  /** Timers a waiting machine leaves behind wait too. */
  lemma LeftBehindWait(m: Machine, n: Machine, own: Option<Kind>, now: int, from: int, until: int)
    requires TimersWait(m, from, until)
    ensures StraysWait(Strays(m, n, own), now, from, until)
  {
  }

  lemma StraysWaitOn(strays: seq<Stray>, more: seq<Stray>, now: int, later: int, from: int, until: int)
    requires StraysWait(strays, now, from, until) && StraysWait(more, later, from, until) && now <= later
    ensures StraysWait(strays + more, later, from, until)
    ensures forall i: nat :: i < |strays| ==> StraysWait(Remove(strays, i), later, from, until)
  {
  }

  lemma StepStaysSealed(h: Haunted, l: Label, from: int, until: int)
    requires Sealed(h, from, until)
    ensures Sealed(LateStep(h, Prompted(l)), from, until)
  {
    var n := Step(h.m, l);
    StepNotifies(h.m, l);
    StepKeepsTidy(h.m, l);
    StepWaits(h.m, l, from, until);
    StepNow(h.m, l);
    if n.now < until {
      var m := if l.Fire? && n != h.m then Spend(h.m, l.k) else h.m;
      WaitingTimers(h.m, if l.Fire? then l.k else Activate, from, until);
      LeftBehindWait(m, n, None, n.now, from, until);
      StraysWaitOn(h.strays, Strays(m, n, None), h.m.now, n.now, from, until);
    }
  }

  lemma WaitingTimers(m: Machine, k: Kind, from: int, until: int)
    requires Tidy(m) && TooShort(m.b, from, until) && Waits(m, from, until) && m.now < until
    ensures TimersWait(m, from, until) && TimersWait(Spend(m, k), from, until)
  {
  }

  lemma LateStaysSealed(h: Haunted, i: nat, from: int, until: int)
    requires Sealed(h, from, until)
    ensures Sealed(LateStep(h, Late(i)), from, until)
  {
    if i < |h.strays| && h.strays[i].at <= h.m.now {
      var k := h.strays[i].kind;
      var n := Callback(h.m, k);
      CallbackNotifies(h.m, k);
      CallbackKeepsTidy(h.m, k);
      CallbackWaits(h.m, k, from, until);
      CallbackNow(h.m, k);
      if h.m.now < until {
        WaitingTimers(h.m, k, from, until);
        LeftBehindWait(h.m, n, Some(k), h.m.now, from, until);
        StraysWaitOn(h.strays, [], h.m.now, h.m.now, from, until);
        StraysWaitOn(Remove(h.strays, i), Strays(h.m, n, Some(k)), h.m.now, h.m.now, from, until);
      }
    }
  }

  lemma {:induction false} RunStaysSealed(h: Haunted, ls: seq<LateLabel>, from: int, until: int)
    requires Sealed(h, from, until)
    ensures Sealed(RunFrom(h, ls), from, until)
  {
    if ls != [] {
      var p := RunFrom(h, ls[..|ls| - 1]);
      RunStaysSealed(h, ls[..|ls| - 1], from, until);
      match ls[|ls| - 1]
      case Prompted(l) => StepStaysSealed(p, l, from, until);
      case Late(i) => LateStaysSealed(p, i, from, until);
    }
  }

  // ----- a rise before `until` -----

  function Max(x: int, y: int): int {
    if x < y then y else x
  }

  /** If the window ended at `release`, the output could rise before `until`:
      at once, after the activation delay, or on a stray activation callback. */
  predicate RisesFrom(h: Haunted, release: int, until: int) {
    && release < until
    && (|| h.m.b.activateAfter <= 0
        || release + h.m.b.activateAfter < until
        || exists j :: 0 <= j < |h.strays| && h.strays[j].kind.Activate? && h.strays[j].at < until)
  }

  /** A stray cooldown callback can end the window in time for such a rise. */
  predicate EndsEarly(h: Haunted, until: int) {
    exists i :: 0 <= i < |h.strays| && h.strays[i].kind.Cooldown? && RisesFrom(h, Max(h.m.now, h.strays[i].at), until)
  }

  /** Some continuation raises the output before `until`. */
  ghost predicate CanRise(h: Haunted, until: int) {
    exists ls :: RisesBy(h, ls, until)
  }

  predicate RisesBy(h: Haunted, ls: seq<LateLabel>, until: int) {
    Raised(RunFrom(h, ls).m) && RunFrom(h, ls).m.now < until
  }

  lemma NoStrayNoRise(h: Haunted, ls: seq<LateLabel>, until: int)
    requires Tidy(h.m) && h.m.state.Inactive? && Quiet(h.m, until) && !EndsEarly(h, until)
    ensures !RisesBy(h, ls, until)
  {
    var strays, now, delay := h.strays, h.m.now, h.m.b.activateAfter;
    if now < until {
      var from := until;
      if i :| 0 <= i < |strays| && strays[i].kind.Cooldown? && strays[i].at < until {
        assert !RisesFrom(h, Max(now, strays[i].at), until);
        from := until - delay;
      }
      forall i | 0 <= i < |strays| && strays[i].kind.Cooldown? && now < from ensures from <= strays[i].at {
        assert !RisesFrom(h, Max(now, strays[i].at), until);
      }
      assert Sealed(h, from, until);
      RunStaysSealed(h, ls, from, until);
    } else {
      assert Sealed(h, until, until);
      RunStaysSealed(h, ls, until, until);
    }
  }

  // ----- witnesses, one step at a time -----

  ghost predicate Reaches(h: Haunted, n: Haunted) {
    exists ls :: RunFrom(h, ls) == n
  }

  lemma ReachesNext(h: Haunted, l: LateLabel)
    ensures Reaches(h, LateStep(h, l))
  {
    assert [l][..0] == [];
    assert RunFrom(h, [l]) == LateStep(h, l);
  }

  lemma ReachesOn(h: Haunted, n: Haunted, z: Haunted)
    requires Reaches(h, n) && Reaches(n, z)
    ensures Reaches(h, z)
  {
    var ls :| RunFrom(h, ls) == n;
    var more :| RunFrom(n, more) == z;
    RunsOn(h, ls, more);
  }

  lemma {:induction false} RunsOn(h: Haunted, ls: seq<LateLabel>, more: seq<LateLabel>)
    ensures RunFrom(h, ls + more) == RunFrom(RunFrom(h, ls), more)
    decreases |more|
  {
    if more == [] {
      assert ls + more == ls;
    } else {
      var n := |more| - 1;
      assert (ls + more)[..|ls + more| - 1] == ls + more[..n];
      RunsOn(h, ls, more[..n]);
    }
  }

  /** An idle machine with its gates open, out of any quiet period. */
  predicate Idle(m: Machine) {
    && m.state.Inactive? && !m.rawInput && !m.inhibited && !m.pendingTimer.Live?
    && m.cooldownUntil.None? && m.retAccumulated == 0
  }

  lemma Withdrawn(h: Haunted)
    requires h.m.state.Inactive?
    ensures Reaches(h, Haunted(h.m.(rawInput := false), h.strays))
  {
    ReachesNext(h, Prompted(Raw(false)));
    assert LateStep(h, Prompted(Raw(false))) == Haunted(h.m.(rawInput := false), h.strays);
  }

  lemma Opened(h: Haunted)
    requires h.m.state.Inactive? && !h.m.rawInput
    ensures Reaches(h, Haunted(h.m.(inhibited := false), h.strays))
  {
    ReachesNext(h, Prompted(Inhibit(false)));
    assert LateStep(h, Prompted(Inhibit(false))) == Haunted(h.m.(inhibited := false), h.strays);
  }

  lemma Elapsed(h: Haunted, wait: nat)
    ensures Reaches(h, Haunted(h.m.(now := h.m.now + wait), h.strays))
  {
    ReachesNext(h, Prompted(Advance(wait)));
    assert LateStep(h, Prompted(Advance(wait))) == Haunted(h.m.(now := h.m.now + wait), h.strays);
  }

  /** Withdraw the input, release the gate and wait. */
  lemma Waited(h: Haunted, wait: nat)
    requires h.m.state.Inactive?
    ensures Reaches(h, Haunted(h.m.(rawInput := false, inhibited := false, now := h.m.now + wait), h.strays))
  {
    var gone := Haunted(h.m.(rawInput := false), h.strays);
    var free := Haunted(gone.m.(inhibited := false), h.strays);
    var waited := Haunted(free.m.(now := h.m.now + wait), h.strays);
    Withdrawn(h);
    Opened(gone);
    ReachesOn(h, gone, free);
    Elapsed(free, wait);
    ReachesOn(h, free, waited);
  }

  /** A stray cooldown callback ends the window of a machine left alone. */
  lemma StrayReleases(h: Haunted, i: nat) returns (n: Haunted)
    requires Tidy(h.m) && h.m.state.Inactive? && !h.m.rawInput && !h.m.inhibited
    requires i < |h.strays| && h.strays[i].kind.Cooldown? && h.strays[i].at <= h.m.now
    ensures Reaches(h, n) && Idle(n.m) && n.m.b == h.m.b && n.m.now == h.m.now
    ensures forall j :: 0 <= j < |h.strays| && j != i ==> h.strays[j] in n.strays
  {
    n := LateStep(h, Late(i));
    ReachesNext(h, Late(i));
    Freed(h, i);
    forall j | 0 <= j < |h.strays| && j != i ensures h.strays[j] in n.strays {
      assert Remove(h.strays, i)[if j < i then j else j - 1] == h.strays[j];
    }
  }

  lemma Freed(h: Haunted, i: nat)
    requires Tidy(h.m) && h.m.state.Inactive? && !h.m.rawInput && !h.m.inhibited
    requires i < |h.strays| && h.strays[i].kind.Cooldown? && h.strays[i].at <= h.m.now
    ensures var n := LateStep(h, Late(i)); Idle(n.m) && n.m.b == h.m.b && n.m.now == h.m.now
  {
  }

  /** An assertion then starts an activation. */
  lemma IdleStarts(h: Haunted) returns (n: Haunted)
    requires Idle(h.m)
    ensures Reaches(h, n) && Begun(h.m, n.m) && forall x :: x in h.strays ==> x in n.strays
  {
    n := LateStep(h, Prompted(Raw(true)));
    ReachesNext(h, Prompted(Raw(true)));
    Starts(h.m);
  }

  /** The idle machine `m` has just been asserted. */
  predicate Begun(m: Machine, n: Machine) {
    && n.now == m.now && n.b == m.b
    && (if m.b.activateAfter <= 0 then n.state.Active?
        else n.state.PendingActivation? && n.pendingTimer == Live(Activate, m.now + m.b.activateAfter))
  }

  lemma Starts(m: Machine)
    requires Idle(m)
    ensures Begun(m, SetRawInput(m, true))
  {
  }

  lemma ActivationRaises(m: Machine)
    requires m.state.PendingActivation?
    ensures Raised(OnActivateTimer(m)) && OnActivateTimer(m).now == m.now
  {
  }

  lemma DueFires(h: Haunted) returns (n: Haunted)
    requires h.m.state.PendingActivation? && h.m.pendingTimer == Live(Activate, h.m.now)
    ensures Reaches(h, n) && Raised(n.m) && n.m.now == h.m.now
  {
    n := LateStep(h, Prompted(Fire(Activate)));
    ReachesNext(h, Prompted(Fire(Activate)));
    ActivationRaises(Spend(h.m, Activate));
  }

  lemma StrayFires(h: Haunted, x: Stray) returns (n: Haunted)
    requires h.m.state.PendingActivation? && x in h.strays && x.kind.Activate? && x.at <= h.m.now
    ensures Reaches(h, n) && Raised(n.m) && n.m.now == h.m.now
  {
    var j :| 0 <= j < |h.strays| && h.strays[j] == x;
    n := LateStep(h, Late(j));
    ReachesNext(h, Late(j));
    ActivationRaises(h.m);
  }

  lemma DelayRaises(h: Haunted, at: int) returns (n: Haunted)
    requires h.m.state.PendingActivation? && h.m.pendingTimer == Live(Activate, at) && h.m.now <= at
    ensures Reaches(h, n) && Raised(n.m) && n.m.now == at
  {
    var w := Haunted(h.m.(now := at), h.strays);
    Elapsed(h, at - h.m.now);
    n := DueFires(w);
    ReachesOn(h, w, n);
  }

  lemma StrayRaises(h: Haunted, x: Stray) returns (n: Haunted)
    requires h.m.state.PendingActivation? && x in h.strays && x.kind.Activate?
    ensures Reaches(h, n) && Raised(n.m) && n.m.now == Max(h.m.now, x.at)
  {
    var w := Haunted(h.m.(now := Max(h.m.now, x.at)), h.strays);
    Elapsed(h, w.m.now - h.m.now);
    n := StrayFires(w, x);
    ReachesOn(h, w, n);
  }

  /** An idle machine can rise before `until` on a delay that is short enough
      or on a stray activation callback. */
  lemma IdleRises(h: Haunted, until: int) returns (n: Haunted)
    requires Idle(h.m) && RisesFrom(h, h.m.now, until)
    ensures Reaches(h, n) && Raised(n.m) && n.m.now < until
  {
    var s := IdleStarts(h);
    if h.m.b.activateAfter <= 0 {
      return s;
    }
    if h.m.now + h.m.b.activateAfter < until {
      n := DelayRaises(s, h.m.now + h.m.b.activateAfter);
    } else {
      var j :| 0 <= j < |h.strays| && h.strays[j].kind.Activate? && h.strays[j].at < until;
      assert h.strays[j] in h.strays;
      n := StrayRaises(s, h.strays[j]);
    }
    ReachesOn(h, s, n);
  }

  lemma StrayRises(h: Haunted, i: nat, until: int) returns (n: Haunted)
    requires Tidy(h.m) && h.m.state.Inactive?
    requires i < |h.strays| && h.strays[i].kind.Cooldown? && RisesFrom(h, Max(h.m.now, h.strays[i].at), until)
    ensures Reaches(h, n) && Raised(n.m) && n.m.now < until
  {
    var wait := Max(h.m.now, h.strays[i].at) - h.m.now;
    var w := Haunted(h.m.(rawInput := false, inhibited := false, now := h.m.now + wait), h.strays);
    Waited(h, wait);
    var r := StrayReleases(w, i);
    if j :| 0 <= j < |h.strays| && h.strays[j].kind.Activate? && h.strays[j].at < until {
      assert h.strays[j] in r.strays;
    }
    n := IdleRises(r, until);
    ReachesOn(h, w, r);
    ReachesOn(h, r, n);
  }

  // ----- the exact condition -----

  /** A state of some late run. */
  ghost predicate Reachable(h: Haunted) {
    exists b, t0, ls :: h == LateRun(b, t0, ls)
  }

  /** Whether at least `cooldown` passes between a natural fall and the next
      rise, whatever happens in between, is decided by the state the fall
      leaves: it fails exactly when a stray cooldown callback is outstanding
      that can end the window early enough for an activation. */
  lemma {:induction false} LateCooldownSeparation(h: Haunted, fall: LateLabel, fallen: Haunted, until: int)
    requires Reachable(h) && fall != Prompted(Reset) && fallen == LateStep(h, fall)
    requires Raised(h.m) && !Raised(fallen.m) && until == fallen.m.now + h.m.b.cooldown
    ensures CanRise(fallen, until) <==> EndsEarly(fallen, until)
  {
    FallenWaits(h, fall, fallen, until);
    QuietDecides(fallen, until);
  }

  /** Inactive in a quiet period that lasts until `until`. */
  predicate Resting(m: Machine, until: int) {
    Tidy(m) && m.state.Inactive? && Quiet(m, until)
  }

  lemma {:induction false} FallenWaits(h: Haunted, fall: LateLabel, fallen: Haunted, until: int)
    requires Reachable(h) && fall != Prompted(Reset) && fallen == LateStep(h, fall)
    requires Raised(h.m) && !Raised(fallen.m) && until == fallen.m.now + h.m.b.cooldown
    ensures Resting(fallen.m, until)
  {
    ReachableIsTidy(h);
    LateStepKeepsTidy(h, fall);
    LateNaturalFallIsQuiet(h, fall);
    LateFallIsInactive(h, fall);
  }

  lemma ReachableIsTidy(h: Haunted)
    requires Reachable(h)
    ensures Tidy(h.m)
  {
    var b, t0, ls :| h == LateRun(b, t0, ls);
    LateRunKeepsTidy(b, t0, ls);
  }

  lemma {:induction false} QuietDecides(f: Haunted, until: int)
    requires Resting(f.m, until)
    ensures CanRise(f, until) <==> EndsEarly(f, until)
  {
    if EndsEarly(f, until) {
      var i :| 0 <= i < |f.strays| && f.strays[i].kind.Cooldown? && RisesFrom(f, Max(f.m.now, f.strays[i].at), until);
      var n := StrayRises(f, i, until);
      var ls :| RunFrom(f, ls) == n;
      assert RisesBy(f, ls, until);
    } else if CanRise(f, until) {
      var ls :| RisesBy(f, ls, until);
      NoStrayNoRise(f, ls, until);
      assert false;
    }
  }

  // ----- a window that does end early -----

  const TEN := Behavior(0, 0, 0, 10, false, false, false, false)

  /** On and off at 0, with a cooldown of 10. */
  function Off(): Haunted {
    LateStep(LateStep(Haunted(Boot(TEN, 0), []), Prompted(Raw(true))), Prompted(Raw(false)))
  }

  /** On again just as the cooldown ends, its timer not yet run. */
  function Overtaken(): Haunted {
    LateStep(LateStep(LateStep(Off(), Prompted(Advance(10))), Prompted(Raw(true))), Prompted(Advance(1)))
  }

  lemma OffState()
    ensures Off() ==
            Haunted(Machine(TEN, 0, Inactive, false, false, false, Some(10), Nil, Nil, Live(Cooldown, 10), 0, None,
                            [Note(false, true), Note(true, false)]), [])
  {
    var h0 := Haunted(New(TEN, 0), []);
    var h1 := Haunted(h0.m.(state := Active, rawInput := true, notes := [Note(false, true)]), []);
    assert LateStep(h0, Prompted(Raw(true))) == h1;
  }

  lemma OvertakenState()
    ensures Overtaken() ==
            Haunted(Machine(TEN, 11, Active, true, false, false, Some(10), Nil, Nil, Live(Cooldown, 10), 0, None,
                            [Note(false, true), Note(true, false), Note(false, true)]), [])
  {
    OffState();
  }

  lemma OvertakenBreaks(h: Haunted)
    requires h == Haunted(Machine(TEN, 11, Active, true, false, false, Some(10), Nil, Nil, Live(Cooldown, 10), 0, None,
                                  [Note(false, true), Note(true, false), Note(false, true)]), [])
    ensures BreaksCooldown(h)
  {
    var fallen := LateStep(h, Prompted(Raw(false)));
    assert fallen.strays == [Stray(Cooldown, 10)] && fallen.m.state.Inactive? && !fallen.m.rawInput;
    LateStepKeepsTidy(h, Prompted(Raw(false)));
    Freed(fallen, 0);
    Starts(LateStep(fallen, Late(0)).m);
  }

  /** The output falls and, once the cooldown timer that was due runs late,
      rises again at the same instant. */
  predicate BreaksCooldown(h: Haunted) {
    var fallen := LateStep(h, Prompted(Raw(false)));
    var risen := LateStep(LateStep(fallen, Late(0)), Prompted(Raw(true)));
    && Due(h.m.cooldownTimer, h.m.now) && h.m.b.cooldown > 0
    && Raised(h.m) && !Raised(fallen.m) && Raised(risen.m)
    && risen.m.now == fallen.m.now
  }

  /** A cooldown timer that is due, overtaken and then replaced ends the next
      quiet period the moment its callback gets the lock: the output falls at
      11 with a cooldown of 10, and rises again at 11. */
  lemma LateCallbackBreaksCooldown()
    ensures BreaksCooldown(Overtaken())
  {
    OvertakenState();
    OvertakenBreaks(Overtaken());
  }
}
