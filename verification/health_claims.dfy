/** What the readiness cache promises: pushed failures are believed until the
    next evaluation, verdicts are dated to the start of their current run, and
    the lifecycle gate is decided by history alone. */
module HealthClaims {
  import opened Options
  import opened HealthCache
  import opened HealthRuns

  // ----- pushed failures -----

  predicate NotReady(entries: seq<Status>, component: string) {
    forall i :: 0 <= i < |entries| && entries[i].component == component ==> !entries[i].ready
  }

  /** Nothing cached shows the component ready. */
  predicate Down(c: Cache, component: string) {
    c.results.Some? && c.results.value < |c.reports| ==> NotReady(c.reports[c.results.value].entries, component)
  }

  /** The same entries, some of them no longer ready. */
  predicate Worsened(a: seq<Status>, b: seq<Status>) {
    |b| == |a| && forall i :: 0 <= i < |a| ==> b[i] == a[i] || b[i] == a[i].(ready := false)
  }

  predicate ReportsWorsen(c: Cache, n: Cache) {
    && |c.reports| <= |n.reports|
    && forall i :: 0 <= i < |c.reports| ==> Worsened(c.reports[i].entries, n.reports[i].entries)
  }

  lemma StepWorsens(s: System, l: Label)
    ensures ReportsWorsen(s.c, Step(s, l).c)
  {
    if l.Complete? && |l.ready| == |s.c.contributors| {
      FinishMeans(s.c, l.ready, s.now);
    }
  }

  /** A report once computed only ever loses ready entries. */
  lemma {:induction false} ReportsOnlyWorsen(s: System, ls: seq<Label>)
    ensures ReportsWorsen(s.c, Run(s, ls).c)
  {
    if ls != [] {
      var m := Run(s, ls[..|ls| - 1]);
      ReportsOnlyWorsen(s, ls[..|ls| - 1]);
      StepWorsens(m, ls[|ls| - 1]);
      var n := Step(m, ls[|ls| - 1]);
      forall i | 0 <= i < |s.c.reports| ensures Worsened(s.c.reports[i].entries, n.c.reports[i].entries) {
        assert Worsened(s.c.reports[i].entries, m.c.reports[i].entries);
        assert Worsened(m.c.reports[i].entries, n.c.reports[i].entries);
      }
    }
  }

  predicate NoEvaluationCompletes(ls: seq<Label>) {
    forall i :: 0 <= i < |ls| ==> !ls[i].Complete?
  }

  lemma StepKeepsDown(s: System, l: Label, component: string)
    requires Down(s.c, component) && !l.Complete?
    ensures Down(Step(s, l).c, component)
  {
  }

  lemma {:induction false} RunKeepsDown(s: System, ls: seq<Label>, component: string)
    requires Down(s.c, component) && NoEvaluationCompletes(ls)
    ensures Down(Run(s, ls).c, component)
  {
    if ls != [] {
      RunKeepsDown(s, ls[..|ls| - 1], component);
      StepKeepsDown(Run(s, ls[..|ls| - 1]), ls[|ls| - 1], component);
    }
  }

  lemma {:induction false} VisibleHides(entries: seq<Status>, probe: Probe, component: string)
    requires NotReady(entries, component)
    ensures |Visible(entries, probe)| > 0 && NotReady(Visible(entries, probe)[1..], component)
  {
    if entries != [] {
      var n := |entries| - 1;
      VisibleHides(entries[..n], probe, component);
    }
  }

  /** A component reports its own failure in any reachable state, and then
      anything happens but the completion of an evaluation. A reader that now
      takes the cached report, because it is young enough or because it gives up
      waiting, never shows that component ready, however long it waits before
      copying and whatever happens meanwhile, later recoveries and evaluations
      included. Entry 0 is the built-in process entry. */
  lemma {:induction false} PushedFailureIsBelieved(
    cs: seq<Contributor>, t0: int, before: seq<Label>, component: string, since: seq<Label>,
    t: nat, take: Label, later: seq<Label>)
    requires NoEvaluationCompletes(since)
    requires take == Ask(t) || take == Cancel(t)
    requires var s := Run(Step(Run(Initial(cs, t0), before), PushFailure(component)), since);
             && t in s.readers && !Done(s.readers[t])
             && t in Step(s, take).readers && Done(Step(s, take).readers[t])
    ensures var s := Step(Run(Step(Run(Initial(cs, t0), before), PushFailure(component)), since), take);
            var answer := Answer(Run(s, later), s.readers[t]);
            |answer| > 0 && NotReady(answer[1..], component)
  {
    RunKeeps(cs, t0, before);
    var a := Run(Initial(cs, t0), before);
    var b := Step(a, PushFailure(component));
    StepKeeps(a, PushFailure(component));
    assert Down(b.c, component);
    RunKeepsFrom(b, since);
    RunKeepsDown(b, since, component);
    CachedStaysDown(Run(b, since), t, take, later, component);
  }

  lemma {:induction false} CachedStaysDown(s: System, t: nat, take: Label, later: seq<Label>, component: string)
    requires Inv(s) && Down(s.c, component)
    requires take == Ask(t) || take == Cancel(t)
    requires t in s.readers && !Done(s.readers[t])
    requires t in Step(s, take).readers && Done(Step(s, take).readers[t])
    ensures var n := Step(s, take);
            var answer := Answer(Run(n, later), n.readers[t]);
            |answer| > 0 && NotReady(answer[1..], component)
  {
    TakesTheCached(s, t, take);
    var n := Step(s, take);
    var r := n.readers[t];
    if s.c.results.Some? {
      var k := s.c.results.value;
      ReportsOnlyWorsen(n, later);
      var z := Run(n, later);
      assert Worsened(n.c.reports[k].entries, z.c.reports[k].entries);
      VisibleHides(z.c.reports[k].entries, r.probe, component);
    }
  }

  lemma TakesTheCached(s: System, t: nat, take: Label)
    requires take == Ask(t) || take == Cancel(t)
    requires t in s.readers && !Done(s.readers[t])
    requires t in Step(s, take).readers && Done(Step(s, take).readers[t])
    ensures var r := Step(s, take).readers[t];
            && Step(s, take).c == s.c
            && ((r.Served? && s.c.results == Some(r.report)) || (r.GaveUp? && s.c.results == r.last))
  {
  }

  // ----- dating -----

  /** `k` is the component's verdict that opens the run of equal verdicts it is
      still in: everything recorded for it since agrees, and what was recorded
      for it just before, if anything, differs. */
  predicate OpensCurrentRun(v: seq<Verdict>, component: string, k: nat) {
    && k < |v| && v[k].component == component
    && (forall j :: k < j < |v| && v[j].component == component ==> v[j].ready == v[k].ready)
    && (forall j :: 0 <= j < k && v[j].component == component ==>
          v[j].ready != v[k].ready || exists i :: j < i < k && v[i].component == component)
  }

  /** `date` is what the log `v` says of the component. */
  ghost predicate DatedAs(v: seq<Verdict>, component: string, date: Option<Since>) {
    match date
    case Some(d) => exists k: nat :: OpensCurrentRun(v, component, k) && d == Since(v[k].ready, v[k].at)
    case None => forall j :: 0 <= j < |v| ==> v[j].component != component
  }

  function DateOf(c: Cache, component: string): Option<Since> {
    if component in c.since then Some(c.since[component]) else None
  }

  ghost predicate Dated(c: Cache, component: string) {
    DatedAs(c.verdicts, component, DateOf(c, component))
  }

  lemma {:induction false} NoteKeepsDated(c: Cache, component: string, noted: string, ready: bool, now: int)
    requires Dated(c, component)
    ensures Dated(NoteSince(c, noted, ready, now), component)
  {
    var x := Verdict(noted, ready, now);
    assert NoteSince(c, noted, ready, now).verdicts == c.verdicts + [x];
    var date := DateOf(c, component);
    if noted != component || (date.Some? && date.value.ready == ready) {
      DateStays(c.verdicts, component, date, x);
    } else {
      DateChanges(c.verdicts, component, date, x);
    }
  }

  lemma {:induction false} DateStays(v: seq<Verdict>, component: string, date: Option<Since>, x: Verdict)
    requires DatedAs(v, component, date)
    requires x.component != component || (date.Some? && date.value.ready == x.ready)
    ensures DatedAs(v + [x], component, date)
  {
    if date.Some? {
      var k: nat :| OpensCurrentRun(v, component, k) && date.value == Since(v[k].ready, v[k].at);
      OpenStays(v, component, k, x);
      assert (v + [x])[k] == v[k];
    }
  }

  lemma {:induction false} DateChanges(v: seq<Verdict>, component: string, date: Option<Since>, x: Verdict)
    requires DatedAs(v, component, date)
    requires x.component == component && (date.Some? ==> date.value.ready != x.ready)
    ensures DatedAs(v + [x], component, Some(Since(x.ready, x.at)))
  {
    if date.Some? {
      var k: nat :| OpensCurrentRun(v, component, k) && date.value == Since(v[k].ready, v[k].at);
      OpenAnew(v, component, k, x);
    }
    assert OpensCurrentRun(v + [x], component, |v|);
    assert (v + [x])[|v|] == x;
  }

  lemma {:induction false} OpenAnew(v: seq<Verdict>, component: string, k: nat, x: Verdict)
    requires OpensCurrentRun(v, component, k) && x.component == component && x.ready != v[k].ready
    ensures OpensCurrentRun(v + [x], component, |v|)
  {
    var w := v + [x];
    forall j | 0 <= j < |v| && w[j].component == component
      ensures w[j].ready != x.ready || exists i :: j < i < |v| && w[i].component == component
    {
      assert j < k ==> w[k].component == component;
    }
  }

  lemma {:induction false} OpenStays(v: seq<Verdict>, component: string, k: nat, x: Verdict)
    requires OpensCurrentRun(v, component, k) && (x.component == component ==> x.ready == v[k].ready)
    ensures OpensCurrentRun(v + [x], component, k)
  {
    var w := v + [x];
    forall j | 0 <= j < k && w[j].component == component
      ensures w[j].ready != w[k].ready || exists i :: j < i < k && w[i].component == component
    {
      if v[j].ready == v[k].ready {
        var i :| j < i < k && v[i].component == component;
        assert w[i].component == component;
      }
    }
  }

  lemma {:induction false} NoteAllKeepsDated(c: Cache, component: string, entries: seq<Status>, now: int)
    requires Dated(c, component)
    ensures Dated(NoteAll(c, entries, now), component)
  {
    if entries != [] {
      var n := |entries| - 1;
      NoteAllKeepsDated(c, component, entries[..n], now);
      NoteKeepsDated(NoteAll(c, entries[..n], now), component, entries[n].component, entries[n].ready, now);
    }
  }

  lemma SameDating(c: Cache, n: Cache, component: string)
    requires Dated(c, component) && n.since == c.since && n.verdicts == c.verdicts
    ensures Dated(n, component)
  {
  }

  lemma {:induction false} FinishKeepsDated(c: Cache, ready: seq<bool>, now: int, component: string)
    requires Dated(c, component) && |ready| == |c.contributors|
    ensures Dated(Finish(c, ready, now), component)
  {
    var entries := Probed(c.contributors, ready);
    var n := c.(reports := c.reports + [Report(entries, now)], results := Some(|c.reports|), computedAt := now);
    SameDating(c, n, component);
    NoteAllKeepsDated(n, component, entries, now);
    SameDating(NoteAll(n, entries, now), Finish(c, ready, now), component);
  }

  lemma OtherStepsDateNothing(s: System, l: Label)
    requires !l.PushFailure? && !l.PushRecovery? && !l.Complete? && !l.Return?
    ensures Step(s, l).c.since == s.c.since && Step(s, l).c.verdicts == s.c.verdicts
  {
  }

  lemma {:induction false} PushKeepsDated(c: Cache, x: string, now: int, component: string)
    requires Dated(c, component)
    ensures Dated(ReportFailure(c, x, now), component) && Dated(ReportRecovery(c, x, now), component)
  {
    NoteKeepsDated(c, component, x, false, now);
    SameDating(NoteSince(c, x, false, now), ReportFailure(c, x, now), component);
    NoteKeepsDated(c, component, x, true, now);
    SameDating(NoteSince(c, x, true, now), ReportRecovery(c, x, now), component);
  }

  lemma {:induction false} StepKeepsDated(s: System, l: Label, component: string)
    requires Dated(s.c, component)
    ensures Dated(Step(s, l).c, component)
  {
    match l
    case PushFailure(x) => PushKeepsDated(s.c, x, s.now, component);
    case PushRecovery(x) => PushKeepsDated(s.c, x, s.now, component);
    case Complete(_, ready) =>
      if |ready| == |s.c.contributors| { FinishKeepsDated(s.c, ready, s.now, component); }
    case Return(t, stamp) =>
      if t in s.readers && s.readers[t].Stamping? { NoteAllKeepsDated(s.c, component, s.readers[t].out, stamp); }
    case _ =>
      OtherStepsDateNothing(s, l);
      SameDating(s.c, Step(s, l).c, component);
  }

  /** In every run a component is dated exactly when a verdict was recorded for
      it, and its date is the one of the verdict that opened its current run. */
  lemma {:induction false} SinceOpensTheRun(cs: seq<Contributor>, t0: int, ls: seq<Label>, component: string)
    ensures Dated(Run(Initial(cs, t0), ls).c, component)
  {
    if ls != [] {
      SinceOpensTheRun(cs, t0, ls[..|ls| - 1], component);
      StepKeepsDated(Run(Initial(cs, t0), ls[..|ls| - 1]), ls[|ls| - 1], component);
    }
  }

  // ----- the lifecycle gate -----

  /** The lifecycle is a function of what was called, in any order: a drain
      wins over everything, before or after boot. */
  lemma {:induction false} LifecycleFromHistory(cs: seq<Contributor>, t0: int, ls: seq<Label>)
    ensures Run(Initial(cs, t0), ls).c.state
         == (if Drain in ls then Draining else if Boot in ls then Serving else Starting)
  {
    if ls != [] {
      LifecycleFromHistory(cs, t0, ls[..|ls| - 1]);
      assert ls == ls[..|ls| - 1] + [ls[|ls| - 1]];
      StepLifecycle(Run(Initial(cs, t0), ls[..|ls| - 1]), ls[|ls| - 1]);
    }
  }

  lemma StepLifecycle(s: System, l: Label)
    ensures Step(s, l).c.state == if l.Drain? then Draining
                                  else if l.Boot? && s.c.state.Starting? then Serving
                                  else s.c.state
  {
    if l.Complete? && |l.ready| == |s.c.contributors| {
      FinishMeans(s.c, l.ready, s.now);
    }
  }

  predicate Passing(answer: seq<Status>) {
    forall i :: 0 <= i < |answer| ==> answer[i].ready
  }

  /** A reader is turned away at the gate exactly when the process was not
      booted, or was draining and readiness was asked for; so readiness never
      passes for a reader that arrives after a drain began, forced or not,
      whatever is cached. Its answer fails whenever it copies it. */
  lemma {:induction false} GateDecides(
    cs: seq<Contributor>, t0: int, ls: seq<Label>, t: nat, probe: Probe, force: bool, later: seq<Label>)
    requires t !in Run(Initial(cs, t0), ls).readers
    ensures var n := Step(Run(Initial(cs, t0), ls), Arrive(t, probe, force));
            && t in n.readers
            && (n.readers[t].Gated? <==> if Drain in ls then probe.ReadyProbe? else Boot !in ls)
            && (ProcessStatus(n.c, probe).0 <==> !n.readers[t].Gated?)
            && (n.readers[t].Gated? ==> !Passing(Answer(Run(n, later), n.readers[t])))
            && (!n.readers[t].Gated? ==> n.readers[t] == Asking(n.now, probe, force))
  {
    LifecycleFromHistory(cs, t0, ls);
    var n := Step(Run(Initial(cs, t0), ls), Arrive(t, probe, force));
    if n.readers[t].Gated? {
      assert !Answer(Run(n, later), n.readers[t])[0].ready;
    }
  }

  // ----- readers that give up -----

  predicate AllReady(entries: seq<Status>, probe: Probe) {
    forall i :: 0 <= i < |entries| && entries[i].probe == probe ==> entries[i].ready
  }

  lemma {:induction false} VisiblePasses(entries: seq<Status>, probe: Probe)
    ensures Passing(Visible(entries, probe)) <==> AllReady(entries, probe)
  {
    if entries != [] {
      var n := |entries| - 1;
      VisiblePasses(entries[..n], probe);
      var rest, last := Visible(entries[..n], probe), entries[n];
      assert forall i :: 0 <= i < n ==> entries[..n][i] == entries[i];
      if last.probe == probe {
        assert Visible(entries, probe) == rest + [last];
        assert (rest + [last])[|rest|] == last;
        assert forall i :: 0 <= i < |rest| ==> (rest + [last])[i] == rest[i];
      } else {
        assert Visible(entries, probe) == rest;
      }
    }
  }

  /** A waiting reader that gives up passes exactly when nothing is cached or
      the cached report passes its probe. */
  lemma {:induction false} GivingUpPassesIff(cs: seq<Contributor>, t0: int, ls: seq<Label>, t: nat)
    requires var s := Run(Initial(cs, t0), ls); t in s.readers && s.readers[t].Waiting?
    ensures var s := Run(Initial(cs, t0), ls);
            var n := Step(s, Cancel(t));
            && t in n.readers && n.readers[t].GaveUp?
            && (s.c.results.Some? ==> s.c.results.value < |s.c.reports|)
            && (Passing(Answer(n, n.readers[t])) <==>
                  s.c.results.None? || AllReady(s.c.reports[s.c.results.value].entries, s.readers[t].probe))
  {
    RunKeeps(cs, t0, ls);
    var s := Run(Initial(cs, t0), ls);
    if s.c.results.Some? {
      VisiblePasses(s.c.reports[s.c.results.value].entries, s.readers[t].probe);
    }
  }

  /** The first reader evaluates and the second waits for it. */
  function TwoReaders(): seq<Label> {
    [Boot] + [Arrive(0, ReadyProbe, false)] + [Ask(0)] + [Arrive(1, ReadyProbe, false)] + [Ask(1)]
  }

  /** So a reader can pass a readiness probe although the only component has
      never been found ready and has just reported its own failure: it gives up
      waiting for the first evaluation. */
  lemma GivingUpCanHideAFailure(component: string, t0: int)
    ensures var s := Run(Initial([Contributor(component, ReadyProbe)], t0),
                         TwoReaders() + [PushFailure(component)] + [Cancel(1)]);
            && 1 in s.readers && s.readers[1].GaveUp? && Passing(Answer(s, s.readers[1]))
            && s.c.verdicts == [Verdict(component, false, t0)]
  {
    var s := Initial([Contributor(component, ReadyProbe)], t0);
    FirstReaderEvaluates(s);
    var l3 := [Boot] + [Arrive(0, ReadyProbe, false)] + [Ask(0)];
    RunOne(s, l3, Arrive(1, ReadyProbe, false));
    RunOne(s, l3 + [Arrive(1, ReadyProbe, false)], Ask(1));
    assert Run(s, TwoReaders()).readers[1] == Waiting(t0, ReadyProbe, false, |s.c.calls|);
    RunOne(s, TwoReaders(), PushFailure(component));
    RunOne(s, TwoReaders() + [PushFailure(component)], Cancel(1));
  }

  lemma {:induction false} FirstReaderEvaluates(s: System)
    requires s.c.state.Starting? && s.c.inflight.None? && s.c.results.None? && s.readers == map[]
    ensures var n := Run(s, [Boot] + [Arrive(0, ReadyProbe, false)] + [Ask(0)]);
            && n.c == s.c.(state := Serving, inflight := Some(|s.c.calls|), calls := s.c.calls + [None])
            && n.now == s.now && n.readers.Keys == {0}
  {
    RunOne(s, [], Boot);
    assert [] + [Boot] == [Boot];
    RunOne(s, [Boot], Arrive(0, ReadyProbe, false));
    RunOne(s, [Boot] + [Arrive(0, ReadyProbe, false)], Ask(0));
  }

  lemma RunOne(s: System, ls: seq<Label>, l: Label)
    ensures Run(s, ls + [l]) == Step(Run(s, ls), l)
  {
    assert (ls + [l])[..|ls|] == ls;
  }
}
