/** The health aggregator as the object it is: fields behind a mutex, one method
    per critical section, each tied to the step it performs on the cache. */
module HealthState {
  import opened Options
  import opened HealthCache
  import HealthRuns

  /** The date each entry holds just after it was noted. */
  function Dates(c: Cache, entries: seq<Status>, now: int): seq<int> {
    if entries == [] then []
    else
      var n := |entries| - 1;
      var noted := NoteAll(c, entries, now);
      assert noted == NoteSince(NoteAll(c, entries[..n], now), entries[n].component, entries[n].ready, now);
      Dates(c, entries[..n], now) + [noted.since[entries[n].component].at]
  }

  /** Entry by entry, that is the date on record once it and those before it have
      been noted. */
  lemma {:induction false} DatesAreOnRecord(c: Cache, entries: seq<Status>, now: int, i: nat)
    requires i < |entries|
    ensures var noted := NoteAll(c, entries[..i + 1], now);
            && |Dates(c, entries, now)| == |entries|
            && entries[i].component in noted.since
            && noted.since[entries[i].component] == Since(entries[i].ready, Dates(c, entries, now)[i])
  {
    var n := |entries| - 1;
    if i < n {
      DatesAreOnRecord(c, entries[..n], now, i);
      assert entries[..n][..i + 1] == entries[..i + 1];
    } else {
      if n > 0 { DatesAreOnRecord(c, entries[..n], now, 0); }
      assert entries[..n + 1] == entries;
    }
  }

  class Health {
    var state: Lifecycle
    var contributors: seq<Contributor>
    var reports: seq<Report>        // the shared result slices, by identity
    var results: Option<nat>
    var computedAt: int
    var inflight: Option<nat>
    var calls: seq<Option<nat>>
    var since: map<string, Since>
    ghost var verdicts: seq<Verdict>

    ghost function Snap(): Cache
      reads this
    {
      Cache(state, contributors, reports, results, computedAt, inflight, calls, since, verdicts)
    }

    /** What every reachable cache keeps. */
    predicate Valid()
      reads this
    {
      && (results.Some? ==> results.value < |reports|)
      && (inflight.Some? ==> inflight.value < |calls|)
    }

    constructor (now: int)
      ensures Valid() && Snap() == Initial([], now).c
    {
      state, contributors, reports, results, computedAt := Starting, [], [], None, 0;
      inflight, calls, since, verdicts := None, [], map[], [];
    }

    method Register(c: Contributor)
      requires Valid()
      modifies this
      ensures Valid() && Snap() == old(Snap()).(contributors := old(contributors) + [c])
    {
      contributors := contributors + [c];
    }

    method NoteSinceLocked(component: string, ready: bool, now: int) returns (at: int)
      requires Valid()
      modifies this`since, this`verdicts
      ensures Valid() && Snap() == NoteSince(old(Snap()), component, ready, now)
      ensures component in since && since[component] == Since(ready, at)
    {
      verdicts := verdicts + [Verdict(component, ready, now)];
      if component in since && since[component].ready == ready {
        return since[component].at;
      }
      since := since[component := Since(ready, now)];
      return now;
    }

    /** A component reports a change it saw in itself. */
    method Report(component: string, ok: bool, now: int)
      requires Valid()
      modifies this
      ensures Valid()
      ensures Snap() == if ok then ReportRecovery(old(Snap()), component, now)
                        else ReportFailure(old(Snap()), component, now)
    {
      var _ := NoteSinceLocked(component, ok, now);
      if ok {
        results, computedAt := None, 0;
        return;
      }
      if results.Some? {
        Correct(results.value, component);
      }
    }

    /** Marks every entry of the component in a report not ready, in place. */
    method Correct(r: nat, component: string)
      requires Valid() && r < |reports|
      modifies this`reports
      ensures reports == old(reports)[r := old(reports)[r].(entries := Corrected(old(reports)[r].entries, component))]
    {
      var entries := reports[r].entries;
      ghost var was := entries;
      var i := 0;
      while i < |entries|
        invariant 0 <= i <= |entries| && |entries| == |was| && reports == old(reports)
        invariant forall j :: 0 <= j < i ==> entries[j] == Corrected(was, component)[j]
        invariant forall j :: i <= j < |was| ==> entries[j] == was[j]
      {
        if entries[i].component == component {
          entries := entries[i := entries[i].(ready := false)];
        }
        i := i + 1;
      }
      assert entries == Corrected(was, component);
      reports := reports[r := reports[r].(entries := entries)];
    }

    method SetBooted()
      requires Valid()
      modifies this`state
      ensures Valid() && Snap() == HealthCache.SetBooted(old(Snap()))
    {
      if state == Starting {
        state := Serving;
      }
    }

    method BeginDrain()
      requires Valid()
      modifies this`state
      ensures Valid() && Snap() == HealthCache.BeginDrain(old(Snap()))
    {
      state := Draining;
    }

    method ProcessStatus(probe: Probe) returns (gate: Status, gated: bool)
      requires Valid()
      ensures gate.component == "process" && gate.probe == probe
      ensures (gate.ready, gated) == HealthCache.ProcessStatus(Snap(), probe)
      ensures gated <==> !gate.ready
    {
      match state
      case Starting => return Status("process", probe, false), true;
      case Draining =>
        if probe == LiveProbe {
          return Status("process", probe, true), false;
        }
        return Status("process", probe, false), true;
      case Serving => return Status("process", probe, true), false;
    }

    /** The first critical section of a reader that needs results. */
    method EnterEvaluate(force: bool, now: int) returns (e: Entry)
      requires Valid()
      modifies this`inflight, this`calls
      ensures Valid() && (Snap(), e) == Enter(old(Snap()), force, now)
    {
      if !force && results.Some? && now - computedAt < TTL {
        return FromCache(results.value);
      }
      if inflight.Some? {
        return Join(inflight.value);
      }
      inflight, calls := Some(|calls|), calls + [None];
      return Begin(|calls| - 1);
    }

    /** The second one, of the reader that ran the evaluation. */
    method FinishEvaluate(ready: seq<bool>, now: int) returns (report: nat)
      requires Valid() && |ready| == |contributors|
      modifies this
      ensures Valid() && Snap() == Finish(old(Snap()), ready, now)
      ensures report == |old(reports)| && results == Some(report)
    {
      var entries := Probed(contributors, ready);
      report := |reports|;
      reports := reports + [HealthCache.Report(entries, now)];
      results := Some(report);
      computedAt := now;
      var _ := Date(entries, now);
      inflight := None;
    }

    /** Dates the entries in order and returns their dates. */
    method Date(entries: seq<Status>, now: int) returns (dates: seq<int>)
      requires Valid()
      modifies this`since, this`verdicts
      ensures Valid() && Snap() == NoteAll(old(Snap()), entries, now)
      ensures dates == Dates(old(Snap()), entries, now)
    {
      ghost var was := Snap();
      dates := [];
      var i := 0;
      while i < |entries|
        invariant 0 <= i <= |entries| && Valid()
        invariant Snap() == NoteAll(was, entries[..i], now)
        invariant dates == Dates(was, entries[..i], now)
      {
        assert entries[..i + 1][..i] == entries[..i];
        var at := NoteSinceLocked(entries[i].component, entries[i].ready, now);
        dates := dates + [at];
        i := i + 1;
      }
      assert entries[..i] == entries;
    }

    method HandOut(call: nat, report: nat)
      requires Valid() && call < |calls|
      modifies this`calls
      ensures Valid() && Snap() == Hand(old(Snap()), call, report)
    {
      calls := calls[call := Some(report)];
    }

    method LastResults() returns (r: Option<nat>)
      requires Valid()
      ensures r == Snap().results
      ensures r.Some? ==> r.value < |reports|
    {
      return results;
    }

    /** Copies out what a probe sees of a report. */
    method Filter(report: nat, probe: Probe) returns (out: seq<Status>)
      requires Valid() && report < |reports|
      ensures out == Visible(reports[report].entries, probe)
    {
      var entries := reports[report].entries;
      out := [Status("process", probe, true)];
      var i := 0;
      while i < |entries|
        invariant 0 <= i <= |entries| && out == Visible(entries[..i], probe)
      {
        assert entries[..i + 1][..i] == entries[..i];
        if entries[i].probe == probe {
          out := out + [entries[i]];
        }
        i := i + 1;
      }
      assert entries[..i] == entries;
    }
  }

  /** The aggregator, the clock and the readers on their way through it. */
  class Probing {
    const h: Health
    var now: int
    var readers: map<nat, Reader>

    ghost function Snap(): System
      reads this, h
    {
      System(now, h.Snap(), readers)
    }

    constructor (h: Health, now: int)
      ensures this.h == h && Snap() == System(now, h.Snap(), map[])
    {
      this.h := h;
      this.now := now;
      readers := map[];
    }

    /** One step of a run, performed on the objects. */
    method Perform(l: Label)
      requires HealthRuns.Inv(Snap())
      modifies this, h
      ensures Snap() == Step(old(Snap()), l)
      ensures HealthRuns.Inv(Snap())
    {
      HealthRuns.StepKeeps(Snap(), l);
      match l {
        case Tick(d) => now := now + d;
        case Boot => h.SetBooted();
        case Drain => h.BeginDrain();
        case PushFailure(component) => h.Report(component, false, now);
        case PushRecovery(component) => h.Report(component, true, now);
        case Arrive(t, probe, force) => Arrive(t, probe, force);
        case Ask(t) => Ask(t);
        case Complete(t, ready) => Complete(t, ready);
        case HandOut(t) => HandOut(t);
        case Wake(t) => Wake(t);
        case Cancel(t) => Cancel(t);
        case Copy(t) => Copy(t);
        case Return(t, stamp) => Return(t, stamp);
      }
    }

    method Arrive(t: nat, probe: Probe, force: bool)
      requires HealthRuns.Inv(Snap())
      modifies this
      ensures Snap() == Step(old(Snap()), Label.Arrive(t, probe, force))
    {
      if t !in readers {
        var gate, gated := h.ProcessStatus(probe);
        readers := readers[t := if gated then Gated(now, probe) else Asking(now, probe, force)];
      }
    }

    method Ask(t: nat)
      requires HealthRuns.Inv(Snap())
      modifies this, h
      ensures Snap() == Step(old(Snap()), Label.Ask(t))
    {
      if t in readers && readers[t].Asking? {
        var r := readers[t];
        var e := h.EnterEvaluate(r.force, now);
        match e {
          case FromCache(report) => readers := readers[t := Served(r.at, r.probe, r.force, true, report)];
          case Join(call) => readers := readers[t := Waiting(r.at, r.probe, r.force, call)];
          case Begin(call) => readers := readers[t := Evaluating(r.at, r.probe, r.force, call)];
        }
      }
    }

    method Complete(t: nat, ready: seq<bool>)
      requires HealthRuns.Inv(Snap())
      modifies this, h
      ensures Snap() == Step(old(Snap()), Label.Complete(t, ready))
    {
      if t in readers && readers[t].Evaluating? && |ready| == |h.contributors| {
        var r := readers[t];
        var report := h.FinishEvaluate(ready, now);
        readers := readers[t := Handing(r.at, r.probe, r.force, r.call, report)];
      }
    }

    method HandOut(t: nat)
      requires HealthRuns.Inv(Snap())
      modifies this, h
      ensures Snap() == Step(old(Snap()), Label.HandOut(t))
    {
      if t in readers && readers[t].Handing? {
        var r := readers[t];
        assert HealthRuns.ReaderOk(h.Snap(), now, r);
        h.HandOut(r.call, r.report);
        readers := readers[t := Served(r.at, r.probe, r.force, false, r.report)];
      }
    }

    method Wake(t: nat)
      requires HealthRuns.Inv(Snap())
      modifies this
      ensures Snap() == Step(old(Snap()), Label.Wake(t))
    {
      if t in readers && readers[t].Waiting? {
        var r := readers[t];
        assert HealthRuns.ReaderOk(h.Snap(), now, r);
        if h.calls[r.call].Some? {
          readers := readers[t := Served(r.at, r.probe, r.force, false, h.calls[r.call].value)];
        }
      }
    }

    method Cancel(t: nat)
      requires HealthRuns.Inv(Snap())
      modifies this
      ensures Snap() == Step(old(Snap()), Label.Cancel(t))
    {
      if t in readers && readers[t].Waiting? {
        var last := h.LastResults();
        readers := readers[t := GaveUp(readers[t].at, readers[t].probe, last)];
      }
    }

    method Copy(t: nat)
      requires HealthRuns.Inv(Snap())
      modifies this
      ensures Snap() == Step(old(Snap()), Label.Copy(t))
    {
      if t in readers && Done(readers[t]) {
        var r := readers[t];
        assert HealthRuns.ReaderOk(h.Snap(), now, r);
        var out := [Status("process", r.probe, !r.Gated?)];
        if r.Served? {
          out := h.Filter(r.report, r.probe);
        } else if r.GaveUp? && r.last.Some? {
          out := h.Filter(r.last.value, r.probe);
        }
        readers := readers[t := Stamping(r.at, r.probe, out)];
      }
    }

    method Return(t: nat, stamp: int)
      requires HealthRuns.Inv(Snap())
      modifies this, h
      ensures Snap() == Step(old(Snap()), Label.Return(t, stamp))
    {
      if t in readers && readers[t].Stamping? && readers[t].at <= stamp <= now {
        var _ := h.Date(readers[t].out, stamp);
        readers := readers - {t};
      }
    }
  }
}
