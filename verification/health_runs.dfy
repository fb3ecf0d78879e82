/** What every interleaving of readers, pushes and lifecycle changes keeps. */
module HealthRuns {
  import opened Options
  import opened HealthCache

  // ----- the invariant -----

  predicate CacheOk(c: Cache, now: int) {
    && (c.results.Some? ==> c.results.value < |c.reports| && c.computedAt == c.reports[c.results.value].completedAt)
    && (c.inflight.Some? ==> c.inflight.value < |c.calls| && c.calls[c.inflight.value].None?)
    && (forall i :: 0 <= i < |c.calls| && c.calls[i].Some? ==> c.calls[i].value < |c.reports|)
    && (forall i :: 0 <= i < |c.reports| ==> c.reports[i].completedAt <= now)
  }

  predicate ReaderOk(c: Cache, now: int, r: Reader) {
    && r.at <= now
    && match r
       case Asking(_, _, _) => true
       case Waiting(at, _, _, call) =>
         && call < |c.calls|
         && (c.calls[call].Some? ==>
               c.calls[call].value < |c.reports| && at <= c.reports[c.calls[call].value].completedAt)
       case Evaluating(_, _, _, call) => c.inflight == Some(call)
       case Handing(at, _, _, call, report) =>
         && call < |c.calls| && c.calls[call].None? && c.inflight != Some(call)
         && report < |c.reports| && at <= c.reports[report].completedAt
       case Served(at, _, force, cached, report) =>
         && report < |c.reports| && (cached ==> !force)
         && (if cached then at - TTL < c.reports[report].completedAt else at <= c.reports[report].completedAt)
       case GaveUp(_, _, last) => last.Some? ==> last.value < |c.reports|
       case Gated(_, _) => true
       case Stamping(_, _, _) => true
  }

  /** Two readers are compatible: only one evaluates or hands out a call, and a
      report about to be handed out is no older than those waiting for it. */
  predicate PairOk(c: Cache, r: Reader, q: Reader) {
    && !(r.Evaluating? && q.Evaluating?)
    && (r.Handing? && q.Handing? ==> r.call != q.call)
    && (r.Handing? && q.Waiting? && r.call == q.call && r.report < |c.reports| ==>
          q.at <= c.reports[r.report].completedAt)
  }

  predicate Inv(s: System) {
    && CacheOk(s.c, s.now)
    && (forall t :: t in s.readers ==> ReaderOk(s.c, s.now, s.readers[t]))
    && (forall t, u :: t in s.readers && u in s.readers && t != u ==> PairOk(s.c, s.readers[t], s.readers[u]))
    && (s.c.inflight.Some? ==> exists t :: t in s.readers && s.readers[t].Evaluating?)
  }

  /** Readers and pairs depend on nothing but this part of the cache. */
  predicate SameForReaders(c: Cache, n: Cache) {
    && n.calls == c.calls && n.inflight == c.inflight && |n.reports| == |c.reports|
    && forall i :: 0 <= i < |c.reports| ==> n.reports[i].completedAt == c.reports[i].completedAt
  }

  lemma CacheStepKeeps(s: System, c: Cache, now: int)
    requires Inv(s) && SameForReaders(s.c, c) && CacheOk(c, now) && s.now <= now
    ensures Inv(s.(c := c, now := now))
  {
    var n := s.(c := c, now := now);
    forall t | t in n.readers ensures ReaderOk(c, now, n.readers[t]) {
      assert ReaderOk(s.c, s.now, s.readers[t]);
    }
    forall t, u | t in n.readers && u in n.readers && t != u ensures PairOk(c, n.readers[t], n.readers[u]) {
      assert PairOk(s.c, s.readers[t], s.readers[u]);
    }
    if c.inflight.Some? {
      var t :| t in s.readers && s.readers[t].Evaluating?;
      assert t in n.readers;
    }
  }

  /** One reader changes, the cache as readers see it does not. */
  lemma PutKeeps(s: System, t: nat, r: Reader)
    requires Inv(s) && ReaderOk(s.c, s.now, r)
    requires !r.Evaluating? && !r.Handing?
    requires r.Waiting? ==> s.c.inflight == Some(r.call)
    requires t in s.readers ==> !s.readers[t].Evaluating?
    ensures Inv(Put(s, t, r))
  {
    var n := Put(s, t, r);
    forall u | u in n.readers ensures ReaderOk(n.c, n.now, n.readers[u]) {
      if u != t { assert ReaderOk(s.c, s.now, s.readers[u]); }
    }
    forall u, v | u in n.readers && v in n.readers && u != v ensures PairOk(n.c, n.readers[u], n.readers[v]) {
      if u != t && v != t {
        assert PairOk(s.c, s.readers[u], s.readers[v]);
      } else if v == t && n.readers[u].Handing? {
        assert ReaderOk(s.c, s.now, s.readers[u]);
      }
    }
    if s.c.inflight.Some? {
      var u :| u in s.readers && s.readers[u].Evaluating?;
      assert u in n.readers && n.readers[u].Evaluating?;
    }
  }

  lemma BeginKeeps(s: System, t: nat)
    requires Inv(s) && t in s.readers && s.readers[t].Asking? && s.c.inflight.None?
    ensures var r := s.readers[t];
            var c := s.c.(inflight := Some(|s.c.calls|), calls := s.c.calls + [None]);
            Inv(Put(s.(c := c), t, Evaluating(r.at, r.probe, r.force, |s.c.calls|)))
  {
    var r := s.readers[t];
    var c := s.c.(inflight := Some(|s.c.calls|), calls := s.c.calls + [None]);
    var n := Put(s.(c := c), t, Evaluating(r.at, r.probe, r.force, |s.c.calls|));
    assert ReaderOk(s.c, s.now, r);
    forall u | u in n.readers ensures ReaderOk(n.c, n.now, n.readers[u]) {
      if u != t { assert ReaderOk(s.c, s.now, s.readers[u]); }
    }
    forall u, v | u in n.readers && v in n.readers && u != v ensures PairOk(n.c, n.readers[u], n.readers[v]) {
      if u != t && v != t {
        assert PairOk(s.c, s.readers[u], s.readers[v]);
      } else {
        var w := if u == t then v else u;
        assert ReaderOk(s.c, s.now, s.readers[w]);
      }
    }
    assert t in n.readers && n.readers[t].Evaluating?;
  }

  lemma AskKeeps(s: System, t: nat)
    requires Inv(s) && t in s.readers && s.readers[t].Asking?
    ensures Inv(Step(s, Ask(t)))
  {
    var r := s.readers[t];
    assert ReaderOk(s.c, s.now, r);
    match Enter(s.c, r.force, s.now).1
    case FromCache(report) => PutKeeps(s, t, Served(r.at, r.probe, r.force, true, report));
    case Join(call) => PutKeeps(s, t, Waiting(r.at, r.probe, r.force, call));
    case Begin(_) => BeginKeeps(s, t);
  }

  lemma FinishMeans(c: Cache, ready: seq<bool>, now: int)
    requires |ready| == |c.contributors|
    ensures var n := Finish(c, ready, now);
            && n.reports == c.reports + [Report(Probed(c.contributors, ready), now)]
            && n.results == Some(|c.reports|) && n.computedAt == now
            && n.inflight.None? && n.calls == c.calls && n.state == c.state && n.contributors == c.contributors
  {
  }

  lemma CompleteKeeps(s: System, t: nat, ready: seq<bool>)
    requires Inv(s) && t in s.readers && s.readers[t].Evaluating? && |ready| == |s.c.contributors|
    ensures Inv(Step(s, Complete(t, ready)))
  {
    var r := s.readers[t];
    var c := Finish(s.c, ready, s.now);
    FinishMeans(s.c, ready, s.now);
    var n := Put(s.(c := c), t, Handing(r.at, r.probe, r.force, r.call, |s.c.reports|));
    assert ReaderOk(s.c, s.now, r);
    forall u | u in n.readers ensures ReaderOk(n.c, n.now, n.readers[u]) {
      if u != t {
        assert ReaderOk(s.c, s.now, s.readers[u]);
        assert PairOk(s.c, s.readers[t], s.readers[u]);
      }
    }
    forall u, v | u in n.readers && v in n.readers && u != v ensures PairOk(n.c, n.readers[u], n.readers[v]) {
      if u != t && v != t {
        assert PairOk(s.c, s.readers[u], s.readers[v]);
        assert ReaderOk(s.c, s.now, s.readers[u]);
      } else {
        var w := if u == t then v else u;
        assert ReaderOk(s.c, s.now, s.readers[w]);
        assert PairOk(s.c, s.readers[t], s.readers[w]);
      }
    }
  }

  lemma HandOutKeeps(s: System, t: nat)
    requires Inv(s) && t in s.readers && s.readers[t].Handing?
    ensures Inv(Step(s, HandOut(t)))
  {
    var r := s.readers[t];
    assert ReaderOk(s.c, s.now, r);
    var c := Hand(s.c, r.call, r.report);
    var n := Put(s.(c := c), t, Served(r.at, r.probe, r.force, false, r.report));
    forall u | u in n.readers ensures ReaderOk(n.c, n.now, n.readers[u]) {
      if u != t {
        assert ReaderOk(s.c, s.now, s.readers[u]);
        assert PairOk(s.c, s.readers[t], s.readers[u]);
      }
    }
    forall u, v | u in n.readers && v in n.readers && u != v ensures PairOk(n.c, n.readers[u], n.readers[v]) {
      if u != t && v != t {
        assert PairOk(s.c, s.readers[u], s.readers[v]);
      }
    }
    if n.c.inflight.Some? {
      var u :| u in s.readers && s.readers[u].Evaluating?;
      assert u in n.readers && n.readers[u].Evaluating?;
    }
  }

  lemma ReturnKeeps(s: System, t: nat, stamp: int)
    requires Inv(s) && t in s.readers && s.readers[t].Stamping?
    ensures Inv(Step(s, Return(t, stamp)))
  {
    var n := s.(readers := s.readers - {t});
    forall u | u in n.readers ensures ReaderOk(n.c, n.now, n.readers[u]) {
      assert ReaderOk(s.c, s.now, s.readers[u]);
    }
    forall u, v | u in n.readers && v in n.readers && u != v ensures PairOk(n.c, n.readers[u], n.readers[v]) {
      assert PairOk(s.c, s.readers[u], s.readers[v]);
    }
    if s.c.inflight.Some? {
      var u :| u in s.readers && s.readers[u].Evaluating?;
      assert u in n.readers;
    }
    assert Inv(n);
    CacheStepKeeps(n, NoteAll(s.c, s.readers[t].out, stamp), s.now);
  }

  /** A waiting reader that wakes or gives up, and a reader that copies. */
  lemma LeaveKeeps(s: System, t: nat)
    requires Inv(s)
    ensures Inv(Step(s, Wake(t))) && Inv(Step(s, Cancel(t))) && Inv(Step(s, Copy(t)))
  {
    if t in s.readers {
      var r := s.readers[t];
      assert ReaderOk(s.c, s.now, r);
      if r.Waiting? {
        if s.c.calls[r.call].Some? { PutKeeps(s, t, Served(r.at, r.probe, r.force, false, s.c.calls[r.call].value)); }
        PutKeeps(s, t, GaveUp(r.at, r.probe, s.c.results));
      } else if Done(r) {
        PutKeeps(s, t, Stamping(r.at, r.probe, Answer(s, r)));
      }
    }
  }

  lemma StepKeeps(s: System, l: Label)
    requires Inv(s)
    ensures Inv(Step(s, l))
  {
    match l
    case Tick(d) => CacheStepKeeps(s, s.c, s.now + d);
    case Boot => CacheStepKeeps(s, SetBooted(s.c), s.now);
    case Drain => CacheStepKeeps(s, BeginDrain(s.c), s.now);
    case PushFailure(component) => CacheStepKeeps(s, ReportFailure(s.c, component, s.now), s.now);
    case PushRecovery(component) => CacheStepKeeps(s, ReportRecovery(s.c, component, s.now), s.now);
    case Arrive(t, probe, force) =>
      if t !in s.readers {
        PutKeeps(s, t, if ProcessStatus(s.c, probe).1 then Gated(s.now, probe) else Asking(s.now, probe, force));
      }
    case Ask(t) => if t in s.readers && s.readers[t].Asking? { AskKeeps(s, t); }
    case Complete(t, ready) =>
      if t in s.readers && s.readers[t].Evaluating? && |ready| == |s.c.contributors| { CompleteKeeps(s, t, ready); }
    case HandOut(t) => if t in s.readers && s.readers[t].Handing? { HandOutKeeps(s, t); }
    case Wake(t) => LeaveKeeps(s, t);
    case Cancel(t) => LeaveKeeps(s, t);
    case Copy(t) => LeaveKeeps(s, t);
    case Return(t, stamp) =>
      if t in s.readers && s.readers[t].Stamping? { ReturnKeeps(s, t, stamp); }
  }

  lemma {:induction false} RunKeepsFrom(s: System, ls: seq<Label>)
    requires Inv(s)
    ensures Inv(Run(s, ls))
  {
    if ls != [] {
      RunKeepsFrom(s, ls[..|ls| - 1]);
      StepKeeps(Run(s, ls[..|ls| - 1]), ls[|ls| - 1]);
    }
  }

  lemma {:induction false} RunKeeps(cs: seq<Contributor>, t0: int, ls: seq<Label>)
    ensures Inv(Run(Initial(cs, t0), ls))
  {
    RunKeepsFrom(Initial(cs, t0), ls);
  }

  // ----- single flight and freshness -----

  /** At most one evaluation runs at a time, and a call is in flight exactly
      while one does. */
  lemma {:induction false} SingleFlight(cs: seq<Contributor>, t0: int, ls: seq<Label>)
    ensures var s := Run(Initial(cs, t0), ls);
            && (forall t, u :: t in s.readers && u in s.readers && s.readers[t].Evaluating? && s.readers[u].Evaluating?
                  ==> t == u)
            && (s.c.inflight.Some? <==> exists t :: t in s.readers && s.readers[t].Evaluating?)
  {
    RunKeeps(cs, t0, ls);
    var s := Run(Initial(cs, t0), ls);
    forall t, u | t in s.readers && u in s.readers && s.readers[t].Evaluating? && s.readers[u].Evaluating?
      ensures t == u
    {
      assert t != u ==> PairOk(s.c, s.readers[t], s.readers[u]);
    }
    if t :| t in s.readers && s.readers[t].Evaluating? {
      assert ReaderOk(s.c, s.now, s.readers[t]);
    }
  }

  /** A reader that is served, not cancelled, from the cache gets a report
      completed less than the TTL before it arrived, or later; any other, and
      every forced one, a report completed no earlier than it arrived. */
  lemma {:induction false} ReportsAreFresh(cs: seq<Contributor>, t0: int, ls: seq<Label>, t: nat)
    requires var s := Run(Initial(cs, t0), ls); t in s.readers && s.readers[t].Served?
    ensures var s := Run(Initial(cs, t0), ls);
            var r := s.readers[t];
            && r.report < |s.c.reports| && s.c.reports[r.report].completedAt > r.at - TTL
            && (r.force || !r.cached ==> s.c.reports[r.report].completedAt >= r.at)
  {
    RunKeeps(cs, t0, ls);
    var s := Run(Initial(cs, t0), ls);
    assert ReaderOk(s.c, s.now, s.readers[t]);
  }
}
