/** What a health report says: every answer tells what the contributors said in
    one evaluation, corrected by what they have pushed since, and every verdict
    is recorded as it was given. */
module HealthTruth {
  import opened Options
  import opened HealthCache
  import opened HealthRuns
  import opened HealthClaims

  // ----- contributors -----

  lemma StepKeepsContributors(s: System, l: Label)
    ensures Step(s, l).c.contributors == s.c.contributors
  {
  }

  lemma {:induction false} ContributorsAreFixed(cs: seq<Contributor>, t0: int, ls: seq<Label>)
    ensures Run(Initial(cs, t0), ls).c.contributors == cs
  {
    if ls != [] {
      ContributorsAreFixed(cs, t0, ls[..|ls| - 1]);
      StepKeepsContributors(Run(Initial(cs, t0), ls[..|ls| - 1]), ls[|ls| - 1]);
    }
  }

  // ----- one evaluation -----

  /** The entries say of each contributor, in order, what it answered. */
  predicate Says(entries: seq<Status>, cs: seq<Contributor>, ready: seq<bool>) {
    && |entries| == |cs| == |ready|
    && forall i :: 0 <= i < |cs| ==>
         entries[i].component == cs[i].component && entries[i].probe == cs[i].probe && entries[i].ready == ready[i]
  }

  predicate Evaluates(s: System, t: nat, ready: seq<bool>) {
    t in s.readers && s.readers[t].Evaluating? && |ready| == |s.c.contributors|
  }

  /** An evaluation publishes what the contributors answered, as of now, caches
      it, hands it to the reader that ran it, and is no longer in flight. */
  lemma EvaluationSaysWhatItFound(s: System, t: nat, ready: seq<bool>)
    requires Evaluates(s, t, ready)
    ensures var n, k := Step(s, Complete(t, ready)), |s.c.reports|;
            && |n.c.reports| == k + 1 && n.c.reports[..k] == s.c.reports
            && Says(n.c.reports[k].entries, s.c.contributors, ready) && n.c.reports[k].completedAt == s.now
            && n.c.results == Some(k) && n.c.computedAt == s.now && n.c.inflight.None?
            && t in n.readers && n.readers[t].Handing? && n.readers[t].report == k
            && n.readers[t].call == s.readers[t].call
  {
    FinishMeans(s.c, ready, s.now);
  }

  // ----- corrections -----

  /** Between `s` and the end of `ls` the component pushed a failure while
      report `k` was the cached one. */
  predicate FailedSince(s: System, ls: seq<Label>, k: nat, component: string) {
    exists j :: 0 <= j < |ls| && ls[j] == PushFailure(component) && Run(s, ls[..j]).c.results == Some(k)
  }

  lemma StepCorrects(s: System, l: Label, k: nat)
    requires k < |s.c.reports|
    ensures var n := Step(s, l);
            && k < |n.c.reports| && |n.c.reports[k].entries| == |s.c.reports[k].entries|
            && forall i :: 0 <= i < |s.c.reports[k].entries| ==>
                 var e := s.c.reports[k].entries[i];
                 n.c.reports[k].entries[i] ==
                 if l == PushFailure(e.component) && s.c.results == Some(k) then e.(ready := false) else e
  {
    if l.Complete? && |l.ready| == |s.c.contributors| {
      FinishMeans(s.c, l.ready, s.now);
    }
  }

  lemma FailedNext(s: System, ls: seq<Label>, k: nat, component: string)
    requires ls != []
    ensures var p, l := ls[..|ls| - 1], ls[|ls| - 1];
            FailedSince(s, ls, k, component) <==>
            FailedSince(s, p, k, component) || (l == PushFailure(component) && Run(s, p).c.results == Some(k))
  {
    var p := ls[..|ls| - 1];
    assert forall j :: 0 <= j <= |p| ==> p[..j] == ls[..j];
    if FailedSince(s, p, k, component) {
      var j :| 0 <= j < |p| && p[j] == PushFailure(component) && Run(s, p[..j]).c.results == Some(k);
      assert ls[j] == PushFailure(component) && Run(s, ls[..j]).c.results == Some(k);
    }
  }

  /** A report's entries are as computed, but not ready where the component has
      pushed a failure while the report was cached. */
  lemma {:induction false} EntriesFromHistory(s: System, ls: seq<Label>, k: nat)
    requires k < |s.c.reports|
    ensures var n := Run(s, ls);
            && k < |n.c.reports| && |n.c.reports[k].entries| == |s.c.reports[k].entries|
            && forall i :: 0 <= i < |s.c.reports[k].entries| ==>
                 var e := s.c.reports[k].entries[i];
                 n.c.reports[k].entries[i] == e.(ready := e.ready && !FailedSince(s, ls, k, e.component))
  {
    if ls != [] {
      var p := ls[..|ls| - 1];
      EntriesFromHistory(s, p, k);
      StepCorrects(Run(s, p), ls[|ls| - 1], k);
      forall i | 0 <= i < |s.c.reports[k].entries|
        ensures var e := s.c.reports[k].entries[i];
                Run(s, ls).c.reports[k].entries[i] == e.(ready := e.ready && !FailedSince(s, ls, k, e.component))
      {
        FailedNext(s, ls, k, s.c.reports[k].entries[i].component);
      }
    }
  }

  /** In every run, a reader served the report of some evaluation passes exactly
      when every contributor to its probe was ready in that evaluation and has
      not pushed a failure into the report since. */
  lemma {:induction false} AnswersAreTruthful(
    cs: seq<Contributor>, t0: int, before: seq<Label>, t: nat, ready: seq<bool>, later: seq<Label>, u: nat)
    requires Evaluates(Run(Initial(cs, t0), before), t, ready)
    requires var s := Run(Initial(cs, t0), before);
             var n := Run(Step(s, Complete(t, ready)), later);
             u in n.readers && n.readers[u].Served? && n.readers[u].report == |s.c.reports|
    ensures var s := Run(Initial(cs, t0), before);
            var done, k := Step(s, Complete(t, ready)), |s.c.reports|;
            var n := Run(done, later);
            && |ready| == |cs|
            && (Passing(Answer(n, n.readers[u])) <==>
                  forall i :: 0 <= i < |cs| && cs[i].probe == n.readers[u].probe ==>
                    ready[i] && !FailedSince(done, later, k, cs[i].component))
  {
    ContributorsAreFixed(cs, t0, before);
    var s := Run(Initial(cs, t0), before);
    EvaluationSaysWhatItFound(s, t, ready);
    var done := Step(s, Complete(t, ready));
    TruthFrom(done, cs, ready, |s.c.reports|, later, Run(done, later).readers[u]);
  }

  lemma {:induction false} TruthFrom(
    s: System, cs: seq<Contributor>, ready: seq<bool>, k: nat, later: seq<Label>, r: Reader)
    requires k < |s.c.reports| && Says(s.c.reports[k].entries, cs, ready) && r.Served? && r.report == k
    ensures Passing(Answer(Run(s, later), r)) <==>
            forall i :: 0 <= i < |cs| && cs[i].probe == r.probe ==>
              ready[i] && !FailedSince(s, later, k, cs[i].component)
  {
    EntriesFromHistory(s, later, k);
    var entries := Run(s, later).c.reports[k].entries;
    VisiblePasses(entries, r.probe);
    assert forall i :: 0 <= i < |cs| ==>
      entries[i].probe == cs[i].probe && entries[i].ready == (ready[i] && !FailedSince(s, later, k, cs[i].component));
  }

  // ----- what an answer lists -----

  function Matching(entries: seq<Status>, probe: Probe): nat {
    if entries == [] then 0
    else
      var n := |entries| - 1;
      Matching(entries[..n], probe) + (if entries[n].probe == probe then 1 else 0)
  }

  /** An answer lists the process and then the probe's entries, all of them, in
      the order of registration. */
  lemma {:induction false} AnswerLists(entries: seq<Status>, probe: Probe)
    ensures var out := Visible(entries, probe);
            && |out| == 1 + Matching(entries, probe) && out[0] == Status("process", probe, true)
            && forall i :: 0 <= i < |entries| && entries[i].probe == probe ==>
                 Matching(entries[..i], probe) < Matching(entries, probe)
                 && out[1 + Matching(entries[..i], probe)] == entries[i]
  {
    if entries != [] {
      var n := |entries| - 1;
      AnswerLists(entries[..n], probe);
      assert forall i :: 0 <= i < n ==> entries[..n][..i] == entries[..i];
    }
  }

  // ----- when the cache is used -----

  /** In every run, a reader that asks is served from the cache exactly when it
      does not force, a report is cached and it is younger than five seconds;
      else it joins the evaluation in flight, if some reader runs one, and
      otherwise runs one itself. */
  lemma {:induction false} CacheIsUsedIff(cs: seq<Contributor>, t0: int, ls: seq<Label>, t: nat)
    requires var s := Run(Initial(cs, t0), ls); t in s.readers && s.readers[t].Asking?
    ensures var s := Run(Initial(cs, t0), ls);
            var n := Step(s, Ask(t));
            var usable := !s.readers[t].force && s.c.results.Some? && s.c.results.value < |s.c.reports|
                          && s.now - s.c.reports[s.c.results.value].completedAt < 5_000_000_000;
            && t in n.readers
            && (n.readers[t].Served? <==> usable)
            && (usable ==> n.readers[t].cached && Some(n.readers[t].report) == s.c.results)
            && (n.readers[t].Waiting? <==> !usable && exists u :: u in s.readers && s.readers[u].Evaluating?)
            && (n.readers[t].Evaluating? <==> !usable && !exists u :: u in s.readers && s.readers[u].Evaluating?)
  {
    RunKeeps(cs, t0, ls);
    SingleFlight(cs, t0, ls);
  }

  /** The cached report from the history: the last one completed, unless a
      recovery has been pushed since. */
  function CachedReport(s: System, ls: seq<Label>): Option<nat> {
    if ls == [] then s.c.results
    else
      var p, l := ls[..|ls| - 1], ls[|ls| - 1];
      match l
      case Complete(t, ready) =>
        if Evaluates(Run(s, p), t, ready) then Some(|Run(s, p).c.reports|) else CachedReport(s, p)
      case PushRecovery(_) => None
      case _ => CachedReport(s, p)
  }

  lemma {:induction false} CacheFromHistory(s: System, ls: seq<Label>)
    ensures Run(s, ls).c.results == CachedReport(s, ls)
  {
    if ls != [] {
      var p, l := ls[..|ls| - 1], ls[|ls| - 1];
      CacheFromHistory(s, p);
      StepCaches(Run(s, p), l);
    }
  }

  lemma StepCaches(s: System, l: Label)
    ensures Step(s, l).c.results ==
            match l
            case Complete(t, ready) => if Evaluates(s, t, ready) then Some(|s.c.reports|) else s.c.results
            case PushRecovery(_) => None
            case _ => s.c.results
  {
    if l.Complete? && |l.ready| == |s.c.contributors| {
      FinishMeans(s.c, l.ready, s.now);
    }
  }

  // ----- sharing one evaluation -----

  lemma StepKeepsCall(s: System, l: Label, call: nat, k: nat)
    requires Inv(s) && call < |s.c.calls| && s.c.calls[call] == Some(k)
    ensures call < |Step(s, l).c.calls| && Step(s, l).c.calls[call] == Some(k)
  {
    if l.HandOut? && l.t in s.readers && s.readers[l.t].Handing? {
      assert ReaderOk(s.c, s.now, s.readers[l.t]);
    } else if l.Complete? && |l.ready| == |s.c.contributors| {
      FinishMeans(s.c, l.ready, s.now);
    }
  }

  lemma {:induction false} RunKeepsCall(s: System, ls: seq<Label>, call: nat, k: nat)
    requires Inv(s) && call < |s.c.calls| && s.c.calls[call] == Some(k)
    ensures call < |Run(s, ls).c.calls| && Run(s, ls).c.calls[call] == Some(k)
  {
    if ls != [] {
      RunKeepsCall(s, ls[..|ls| - 1], call, k);
      RunKeepsFrom(s, ls[..|ls| - 1]);
      StepKeepsCall(Run(s, ls[..|ls| - 1]), ls[|ls| - 1], call, k);
    }
  }

  /** The reader that ran an evaluation is served its report when it hands it
      out, and so is everyone waiting for that call, whenever they wake. */
  lemma {:induction false} WaitersShareTheReport(
    cs: seq<Contributor>, t0: int, ls: seq<Label>, t: nat, later: seq<Label>, u: nat)
    requires var s := Run(Initial(cs, t0), ls); t in s.readers && s.readers[t].Handing?
    requires var s := Run(Initial(cs, t0), ls);
             var n := Run(Step(s, HandOut(t)), later);
             u in n.readers && n.readers[u].Waiting? && n.readers[u].call == s.readers[t].call
    ensures var s := Run(Initial(cs, t0), ls);
            var done := Step(s, HandOut(t));
            var woken := Step(Run(done, later), Wake(u));
            && t in done.readers && done.readers[t].Served? && done.readers[t].report == s.readers[t].report
            && u in woken.readers && woken.readers[u].Served? && woken.readers[u].report == s.readers[t].report
  {
    RunKeeps(cs, t0, ls);
    var s := Run(Initial(cs, t0), ls);
    assert ReaderOk(s.c, s.now, s.readers[t]);
    StepKeeps(s, HandOut(t));
    RunKeepsCall(Step(s, HandOut(t)), later, s.readers[t].call, s.readers[t].report);
  }

  // ----- what is recorded -----

  /** The verdicts of `entries` at `at`. */
  function VerdictsOf(entries: seq<Status>, at: int): seq<Verdict> {
    seq(|entries|, i requires 0 <= i < |entries| => Verdict(entries[i].component, entries[i].ready, at))
  }

  /** What a step records. */
  function Recorded(s: System, l: Label): seq<Verdict> {
    match l
    case PushFailure(component) => [Verdict(component, false, s.now)]
    case PushRecovery(component) => [Verdict(component, true, s.now)]
    case Complete(t, ready) =>
      if !Evaluates(s, t, ready) then []
      else
        seq(|ready|, i requires 0 <= i < |ready| => Verdict(s.c.contributors[i].component, ready[i], s.now))
    case Return(t, stamp) =>
      if t in s.readers && s.readers[t].Stamping? && s.readers[t].at <= stamp <= s.now
      then VerdictsOf(s.readers[t].out, stamp) else []
    case _ => []
  }

  lemma {:induction false} NoteAllRecords(c: Cache, entries: seq<Status>, now: int)
    ensures NoteAll(c, entries, now).verdicts == c.verdicts + VerdictsOf(entries, now)
  {
    if entries != [] {
      var n := |entries| - 1;
      NoteAllRecords(c, entries[..n], now);
      assert VerdictsOf(entries, now)
          == VerdictsOf(entries[..n], now) + [Verdict(entries[n].component, entries[n].ready, now)];
    }
  }

  /** A push records its verdict, an evaluation those of all contributors, a
      reader those it has copied, and nothing else records any. */
  lemma {:induction false} VerdictsAreRecorded(s: System, l: Label)
    ensures Step(s, l).c.verdicts == s.c.verdicts + Recorded(s, l)
  {
    match l
    case Complete(t, ready) => if Evaluates(s, t, ready) { FinishRecords(s.c, ready, s.now); }
    case Return(t, stamp) =>
      if t in s.readers && s.readers[t].Stamping? { NoteAllRecords(s.c, s.readers[t].out, stamp); }
    case _ =>
  }

  lemma {:induction false} FinishRecords(c: Cache, ready: seq<bool>, now: int)
    requires |ready| == |c.contributors|
    ensures Finish(c, ready, now).verdicts == c.verdicts
         + seq(|ready|, i requires 0 <= i < |ready| => Verdict(c.contributors[i].component, ready[i], now))
  {
    var entries := Probed(c.contributors, ready);
    var n := c.(reports := c.reports + [Report(entries, now)], results := Some(|c.reports|), computedAt := now);
    NoteAllRecords(n, entries, now);
    assert VerdictsOf(entries, now)
        == seq(|ready|, i requires 0 <= i < |ready| => Verdict(c.contributors[i].component, ready[i], now));
  }

  // ----- readers do not disturb each other -----

  predicate Acts(l: Label, u: nat) {
    match l
    case Arrive(t, _, _) => t == u
    case Ask(t) => t == u
    case Complete(t, _) => t == u
    case HandOut(t) => t == u
    case Wake(t) => t == u
    case Cancel(t) => t == u
    case Copy(t) => t == u
    case Return(t, _) => t == u
    case _ => false
  }

  /** A reader moves by its own steps alone, whoever else gives up, evaluates or
      reports meanwhile, and is gone once it has returned. */
  lemma OthersAreUndisturbed(s: System, l: Label, u: nat)
    ensures !Acts(l, u) ==> (u in Step(s, l).readers <==> u in s.readers)
    ensures !Acts(l, u) && u in s.readers ==> Step(s, l).readers[u] == s.readers[u]
    ensures l.Return? && l.t == u && u in s.readers && s.readers[u].Stamping? && s.readers[u].at <= l.stamp <= s.now ==>
              u !in Step(s, l).readers
    ensures Step(s, l).now == s.now + if l.Tick? then l.d else 0
  {
  }
}
