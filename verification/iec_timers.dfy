/** The condition machine against the IEC 61131-3 timers (section 2.5.2.3.4 of
    the second edition): with only `activate_after` set it is an on-delay timer
    (TON), with only `deactivate_after` set an off-delay timer (TOF), for every
    timed input history. The timers are stated on the history alone. */
module IecTimers {
  import opened Options
  import opened ConditionMachine
  import opened MachineRuns

  /** The input was set to `value` at `at`. */
  datatype Edge = Edge(at: int, value: bool)

  predicate InputOnly(ls: seq<Label>) {
    forall l :: l in ls ==> !l.Reset? && !l.Inhibit?
  }

  function Clock(t0: int, ls: seq<Label>): int {
    if ls == [] then t0
    else Clock(t0, ls[..|ls| - 1]) + (if ls[|ls| - 1].Advance? then ls[|ls| - 1].d else 0)
  }

  function History(t0: int, ls: seq<Label>): seq<Edge> {
    if ls == [] then []
    else
      var h := History(t0, ls[..|ls| - 1]);
      if ls[|ls| - 1].Raw? then h + [Edge(Clock(t0, ls[..|ls| - 1]), ls[|ls| - 1].value)] else h
  }

  predicate Asserted(h: seq<Edge>) {
    h != [] && h[|h| - 1].value
  }

  /** The input has been true without interruption since `h[k]`. */
  predicate TrueSince(h: seq<Edge>, k: nat) {
    k < |h| && forall i :: k <= i < |h| ==> h[i].value
  }

  /** TON: asserted continuously for at least `d`. */
  ghost predicate OnDelay(h: seq<Edge>, now: int, d: int) {
    exists k: nat :: TrueSince(h, k) && now - h[k].at >= d
  }

  /** The input went from true to false at `h[k]`. */
  predicate Fell(h: seq<Edge>, k: nat) {
    0 < k < |h| && h[k - 1].value && !h[k].value
  }

  /** TOF: asserted now, or asserted less than `d` ago. */
  ghost predicate OffDelay(h: seq<Edge>, now: int, d: int) {
    Asserted(h) || exists k: nat :: Fell(h, k) && now - h[k].at < d
  }

  // ----- when the input last rose and last fell -----

  function RoseAt(h: seq<Edge>): int
    requires Asserted(h)
  {
    if Asserted(h[..|h| - 1]) then RoseAt(h[..|h| - 1]) else h[|h| - 1].at
  }

  function FellAt(h: seq<Edge>): Option<int> {
    if h == [] then None
    else if Asserted(h[..|h| - 1]) && !Asserted(h) then Some(h[|h| - 1].at)
    else FellAt(h[..|h| - 1])
  }

  predicate Ordered(h: seq<Edge>, now: int) {
    && (forall i, j :: 0 <= i <= j < |h| ==> h[i].at <= h[j].at)
    && (forall i :: 0 <= i < |h| ==> h[i].at <= now)
  }

  lemma {:induction false} HistoryOrdered(t0: int, ls: seq<Label>)
    ensures Ordered(History(t0, ls), Clock(t0, ls))
  {
    if ls != [] {
      HistoryOrdered(t0, ls[..|ls| - 1]);
    }
  }

  lemma {:induction false} OnDelayMeansRoseAt(h: seq<Edge>, now: int, d: int)
    requires Ordered(h, now)
    ensures OnDelay(h, now, d) <==> Asserted(h) && now - RoseAt(h) >= d
  {
    if OnDelay(h, now, d) {
      var k: nat :| TrueSince(h, k) && now - h[k].at >= d;
      assert h[|h| - 1].value;
      RoseAtIsEarliest(h, k);
    }
    if Asserted(h) {
      RoseAtIsReached(h);
    }
  }

  lemma {:induction false} RoseAtIsEarliest(h: seq<Edge>, k: nat)
    requires TrueSince(h, k) && h[|h| - 1].value
    requires forall i, j :: 0 <= i <= j < |h| ==> h[i].at <= h[j].at
    ensures RoseAt(h) <= h[k].at
  {
    var p := h[..|h| - 1];
    if Asserted(p) && k < |p| {
      RoseAtIsEarliest(p, k);
    } else if Asserted(p) {
      RoseAtIsEarliest(p, |p| - 1);
    }
  }

  lemma {:induction false} RoseAtIsReached(h: seq<Edge>)
    requires Asserted(h)
    ensures exists k: nat :: TrueSince(h, k) && h[k].at == RoseAt(h)
  {
    var p := h[..|h| - 1];
    if Asserted(p) {
      RoseAtIsReached(p);
      var k: nat :| TrueSince(p, k) && p[k].at == RoseAt(p);
      assert TrueSince(h, k) by {
        forall i | k <= i < |h| ensures h[i].value {
          if i < |p| { assert p[i].value; }
        }
      }
      assert h[k].at == RoseAt(h);
    } else {
      assert TrueSince(h, |h| - 1) && h[|h| - 1].at == RoseAt(h);
    }
  }

  lemma {:induction false} OffDelayMeansFellAt(h: seq<Edge>, now: int, d: int)
    requires Ordered(h, now)
    ensures OffDelay(h, now, d) <==> Asserted(h) || (FellAt(h).Some? && now - FellAt(h).value < d)
  {
    if k: nat :| Fell(h, k) && now - h[k].at < d {
      FellAtIsLatest(h, k);
    }
    if FellAt(h).Some? {
      FellAtIsReached(h);
    }
  }

  lemma {:induction false} FellAtIsLatest(h: seq<Edge>, k: nat)
    requires Fell(h, k)
    requires forall i, j :: 0 <= i <= j < |h| ==> h[i].at <= h[j].at
    ensures FellAt(h).Some? && h[k].at <= FellAt(h).value
  {
    var p := h[..|h| - 1];
    if k < |p| {
      FellAtIsLatest(p, k);
      assert Fell(p, k);
      FellAtIsReached(p);
    } else {
      assert Asserted(p);
    }
  }

  lemma {:induction false} FellAtIsReached(h: seq<Edge>)
    requires FellAt(h).Some?
    ensures exists k: nat :: Fell(h, k) && h[k].at == FellAt(h).value
  {
    var p := h[..|h| - 1];
    if Asserted(p) && !Asserted(h) {
      assert Fell(h, |h| - 1);
    } else {
      FellAtIsReached(p);
      var k: nat :| Fell(p, k) && p[k].at == FellAt(p).value;
      assert Fell(h, k);
    }
  }

  // ----- TON -----

  predicate OnlyActivateAfter(b: Behavior) {
    && b.activateAfter > 0 && b.deactivateAfter <= 0 && b.timeout <= 0 && b.cooldown <= 0
    && !b.latch && !b.retentive && !b.startActive
  }

  predicate TonState(m: Machine, h: seq<Edge>) {
    && m.rawInput == Asserted(h)
    && !m.inhibited && m.cooldownUntil.None?
    && (match m.state
        case Inactive => !m.rawInput
        case PendingActivation => m.rawInput && m.retStartedAt == Some(RoseAt(h))
        case Active => m.rawInput && m.now - RoseAt(h) >= m.b.activateAfter
        case PendingDeactivation => false)
  }

  lemma TonStep(m: Machine, h: seq<Edge>, l: Label)
    requires Inv(m) && OnlyActivateAfter(m.b) && TonState(m, h) && Ordered(h, m.now)
    requires !l.Reset? && !l.Inhibit?
    ensures TonState(Step(m, l), if l.Raw? then h + [Edge(m.now, l.value)] else h)
  {
    StepKeeps(m, l);
    if l.Raw? {
      assert (h + [Edge(m.now, l.value)])[..|h|] == h;
    }
  }

  lemma {:induction false} TonRun(b: Behavior, t0: int, ls: seq<Label>)
    requires OnlyActivateAfter(b) && InputOnly(ls)
    ensures var m := Run(Boot(b, t0), ls);
            m.now == Clock(t0, ls) && TonState(m, History(t0, ls))
  {
    if ls != [] {
      var p := ls[..|ls| - 1];
      TonRun(b, t0, p);
      RunKeepsInv(b, t0, p);
      HistoryOrdered(t0, p);
      TonStep(Run(Boot(b, t0), p), History(t0, p), ls[|ls| - 1]);
      StepKeeps(Run(Boot(b, t0), p), ls[|ls| - 1]);
    }
  }

  /** The settled output is true exactly when the input has been asserted
      continuously for at least `activate_after` (inverted by `invert`). */
  lemma {:induction false} TonRefinement(b: Behavior, t0: int, ls: seq<Label>)
    requires OnlyActivateAfter(b) && InputOnly(ls) && Settled(Run(Boot(b, t0), ls))
    ensures Output(Run(Boot(b, t0), ls)) == (OnDelay(History(t0, ls), Clock(t0, ls), b.activateAfter) != b.invert)
  {
    TonRun(b, t0, ls);
    RunKeepsInv(b, t0, ls);
    HistoryOrdered(t0, ls);
    OnDelayMeansRoseAt(History(t0, ls), Clock(t0, ls), b.activateAfter);
  }

  // ----- TOF -----

  predicate OnlyDeactivateAfter(b: Behavior) {
    && b.activateAfter <= 0 && b.deactivateAfter > 0 && b.timeout <= 0 && b.cooldown <= 0
    && !b.latch && !b.retentive && !b.startActive
  }

  predicate TofState(m: Machine, h: seq<Edge>) {
    && m.rawInput == Asserted(h)
    && !m.inhibited && m.cooldownUntil.None?
    && (match m.state
        case Inactive =>
          !m.rawInput && (FellAt(h).Some? ==> m.now - FellAt(h).value >= m.b.deactivateAfter)
        case PendingActivation => false
        case Active => m.rawInput
        case PendingDeactivation =>
          FellAt(h).Some? && m.pendingTimer == Live(Deactivate, FellAt(h).value + m.b.deactivateAfter))
  }

  lemma TofStep(m: Machine, h: seq<Edge>, l: Label)
    requires Inv(m) && OnlyDeactivateAfter(m.b) && TofState(m, h) && Ordered(h, m.now)
    requires !l.Reset? && !l.Inhibit?
    ensures TofState(Step(m, l), if l.Raw? then h + [Edge(m.now, l.value)] else h)
  {
    StepKeeps(m, l);
    if l.Raw? {
      assert (h + [Edge(m.now, l.value)])[..|h|] == h;
    }
  }

  lemma {:induction false} TofRun(b: Behavior, t0: int, ls: seq<Label>)
    requires OnlyDeactivateAfter(b) && InputOnly(ls)
    ensures var m := Run(Boot(b, t0), ls);
            m.now == Clock(t0, ls) && TofState(m, History(t0, ls))
  {
    if ls != [] {
      var p := ls[..|ls| - 1];
      TofRun(b, t0, p);
      RunKeepsInv(b, t0, p);
      HistoryOrdered(t0, p);
      TofStep(Run(Boot(b, t0), p), History(t0, p), ls[|ls| - 1]);
      StepKeeps(Run(Boot(b, t0), p), ls[|ls| - 1]);
    }
  }

  /** The settled output is true exactly when the input is asserted now or was
      asserted less than `deactivate_after` ago (inverted by `invert`). */
  lemma {:induction false} TofRefinement(b: Behavior, t0: int, ls: seq<Label>)
    requires OnlyDeactivateAfter(b) && InputOnly(ls) && Settled(Run(Boot(b, t0), ls))
    ensures Output(Run(Boot(b, t0), ls)) == (OffDelay(History(t0, ls), Clock(t0, ls), b.deactivateAfter) != b.invert)
  {
    TofRun(b, t0, ls);
    RunKeepsInv(b, t0, ls);
    HistoryOrdered(t0, ls);
    OffDelayMeansFellAt(History(t0, ls), Clock(t0, ls), b.deactivateAfter);
  }
}
