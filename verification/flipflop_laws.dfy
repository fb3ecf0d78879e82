/** What a flipflop does, told from the levels of its wires alone: which edge
    sets, resets or toggles it, when its gate lets an edge through, when it
    samples, and which of two edges wins. */
module FlipflopLaws {
  import opened Options
  import opened Flipflops
  import ConditionMachine

  predicate Rose(last: Option<bool>, cur: Option<bool>) {
    last == Some(false) && cur == Some(true)
  }

  predicate Fell(last: Option<bool>, cur: Option<bool>) {
    last == Some(true) && cur == Some(false)
  }

  /** The edge a wire is configured for. */
  predicate Happened(mode: Option<Mode>, last: Option<bool>, cur: Option<bool>) {
    match mode
    case Some(Rising) => Rose(last, cur)
    case Some(Falling) => Fell(last, cur)
    case Some(Both) => Rose(last, cur) || Fell(last, cur)
    case _ => false
  }

  /** The level a wire shows now: the last boolean it has shown. */
  function Shows(last: Option<bool>, cur: Option<bool>): Option<bool> {
    if cur == None then last else cur
  }

  /** Without a gate every edge passes; a level gate passes them while it shows
      its level, an edge gate on its edge. */
  predicate Passes(gate: Option<Mode>, last: Option<bool>, cur: Option<bool>) {
    match gate
    case None => true
    case Some(High) => Shows(last, cur) == Some(true)
    case Some(Low) => Shows(last, cur) == Some(false)
    case Some(_) => Happened(gate, last, cur)
  }

  /** A level gate samples when the sampled input notifies while it passes and
      when it starts to pass, an edge gate on its edge. */
  predicate Samples(gate: Option<Mode>, last: Option<bool>, cur: Option<bool>, notified: bool) {
    match gate
    case None => false
    case Some(High) => (Shows(last, cur) == Some(true) && notified) || Rose(last, cur)
    case Some(Low) => (Shows(last, cur) == Some(false) && notified) || Fell(last, cur)
    case Some(_) => Happened(gate, last, cur)
  }

  /** `result` is what levels `env`, after `last`, make of `desired`. */
  predicate Lawful(w: Wiring, last: Levels, env: Levels, notified: bool, desired: bool, result: bool) {
    var passes := Passes(w.gateOn, last.gateOn, env.gateOn);
    var sampled := if w.hasSetFrom && Samples(w.gateOn, last.gateOn, env.gateOn, notified) && env.setFrom.Some?
                   then env.setFrom.value else desired;
    var setRan := passes && Happened(w.setOn, last.setOn, env.setOn);
    var resetRan := passes && Happened(w.resetOn, last.resetOn, env.resetOn);
    var toggleRan := passes && Happened(w.toggleOn, last.toggleOn, env.toggleOn);
    && (!passes ==> result == desired)
    && (setRan && resetRan ==> result == w.dominantSet)
    && (setRan && !resetRan ==> result)
    && (!setRan && resetRan ==> !result)
    && (!setRan && !resetRan && toggleRan ==> result == !sampled)
    && (!setRan && !resetRan && !toggleRan ==> result == sampled)
  }

  /** The reference obeys the laws, */
  lemma ReferenceIsLawful(w: Wiring, history: seq<Levels>, env: Levels, notified: bool, desired: bool)
    ensures Lawful(w, Seen(history), env, notified, desired, RefDesired(w, history, env, notified, desired))
  {
  }

  /** and so, in every run in which only the notifying source has changed, does
      the flipflop, which drives its machine accordingly. */
  lemma {:induction false} FlipflopIsLawful(
    w: Wiring, b: ConditionMachine.Behavior, t0: int, start: Levels, ops: seq<Op>, s: Feeds, env: Levels)
    requires b.timeout <= 0 && SourcesNotify(start, ops) && SourcesNotify(start, ops + [Notify(s, env)])
    ensures var f := Run(Start(New(w, b, t0), start), ops);
            var n := Run(Start(New(w, b, t0), start), ops + [Notify(s, env)]);
            && Lawful(w, Seen(History(start, ops)), env, s.setFrom, f.desired, n.desired)
            && n.m.rawInput == n.desired
  {
    DispatchRefinesReference(w, b, t0, start, ops);
    DispatchRefinesReference(w, b, t0, start, ops + [Notify(s, env)]);
    RunNext(w, b.startActive, start, ops, Notify(s, env));
    ReferenceIsLawful(w, History(start, ops), env, s.setFrom, RefRun(w, b.startActive, start, ops));
  }

  /** The remaining operations, whatever the notifications were. */
  lemma {:induction false} CommandsAreLawful(
    w: Wiring, b: ConditionMachine.Behavior, t0: int, start: Levels, ops: seq<Op>, op: Op)
    requires b.timeout <= 0 && !op.Notify?
    ensures var f := Run(Start(New(w, b, t0), start), ops);
            var n := Flipflops.Step(f, op);
            && n.desired == n.m.rawInput
            && n.desired == match op
                            case SetOp(v) => v
                            case ToggleOp => !f.desired
                            case ClearOp => false
                            case _ => f.desired
  {
    DesiredIsInput(w, b, t0, start, ops);
    DesiredKept(Run(Start(New(w, b, t0), start), ops), op);
  }

  /** A flipflop starts as configured and takes the first levels as baselines:
      what a wire shows at the start is no edge. */
  lemma StartsAsConfigured(w: Wiring, b: ConditionMachine.Behavior, t0: int, start: Levels)
    requires b.timeout <= 0
    ensures var f := Start(New(w, b, t0), start);
            f.desired == f.m.rawInput == b.startActive && f.m.notes == []
  {
    DesiredIsInput(w, b, t0, start, []);
  }
}
