/** The readiness cache: reports computed on demand by at most one evaluation
    at a time, shared by every reader that arrives meanwhile, served from a
    cache for a while, and corrected in place when a component reports its own
    failure. A step is one critical section of one reader or component; readers
    interleave freely. */
module HealthCache {
  import opened Options

  datatype Probe = ReadyProbe | LiveProbe

  datatype Lifecycle = Starting | Serving | Draining

  datatype Contributor = Contributor(component: string, probe: Probe)

  datatype Status = Status(component: string, probe: Probe, ready: bool)

  /** A computed report. Reports are numbered because readers share them: a
      correction to a report is seen by everyone who holds it. */
  datatype Report = Report(entries: seq<Status>, completedAt: int)

  datatype Since = Since(ready: bool, at: int)

  /** A verdict as it was recorded. */
  datatype Verdict = Verdict(component: string, ready: bool, at: int)

  /** How long a report is served without re-evaluating, in nanoseconds. */
  const TTL := 5_000_000_000

  datatype Cache = Cache(
    state: Lifecycle,
    contributors: seq<Contributor>,
    reports: seq<Report>,
    results: Option<nat>,
    computedAt: int,
    inflight: Option<nat>,
    calls: seq<Option<nat>>,      // per evaluation: its report, once handed out
    since: map<string, Since>,
    verdicts: seq<Verdict>)

  // ----- critical sections -----

  /** Dating verdicts changes nothing else. */
  predicate OnlyDated(c: Cache, n: Cache) {
    && n.state == c.state && n.contributors == c.contributors && n.reports == c.reports && n.results == c.results
    && n.computedAt == c.computedAt && n.inflight == c.inflight && n.calls == c.calls
  }

  function NoteSince(c: Cache, component: string, ready: bool, now: int): (n: Cache)
    ensures OnlyDated(c, n)
  {
    var v := c.(verdicts := c.verdicts + [Verdict(component, ready, now)]);
    if component in c.since && c.since[component].ready == ready then v
    else v.(since := c.since[component := Since(ready, now)])
  }

  function NoteAll(c: Cache, entries: seq<Status>, now: int): (n: Cache)
    ensures OnlyDated(c, n)
  {
    if entries == [] then c
    else
      var n := |entries| - 1;
      NoteSince(NoteAll(c, entries[..n], now), entries[n].component, entries[n].ready, now)
  }

  function Corrected(entries: seq<Status>, component: string): (r: seq<Status>)
    ensures |r| == |entries|
    ensures forall i :: 0 <= i < |r| ==>
              r[i] == if entries[i].component == component then entries[i].(ready := false) else entries[i]
  {
    seq(|entries|, i requires 0 <= i < |entries| =>
      if entries[i].component == component then entries[i].(ready := false) else entries[i])
  }

  function ReportFailure(c: Cache, component: string, now: int): Cache {
    var n := NoteSince(c, component, false, now);
    if n.results.None? || n.results.value >= |n.reports| then n
    else
      var r := n.results.value;
      n.(reports := n.reports[r := n.reports[r].(entries := Corrected(n.reports[r].entries, component))])
  }

  function ReportRecovery(c: Cache, component: string, now: int): Cache {
    NoteSince(c, component, true, now).(results := None, computedAt := 0)
  }

  function SetBooted(c: Cache): Cache {
    if c.state.Starting? then c.(state := Serving) else c
  }

  function BeginDrain(c: Cache): Cache {
    c.(state := Draining)
  }

  /** The built-in `process` verdict, and whether it decides alone. */
  function ProcessStatus(c: Cache, probe: Probe): (bool, bool) {
    match c.state
    case Starting => (false, true)
    case Draining => if probe.LiveProbe? then (true, false) else (false, true)
    case Serving => (true, false)
  }

  /** What a reader finds when it asks for results. */
  datatype Entry = FromCache(report: nat) | Join(call: nat) | Begin(call: nat)

  function Enter(c: Cache, force: bool, now: int): (Cache, Entry) {
    if !force && c.results.Some? && now - c.computedAt < TTL then (c, FromCache(c.results.value))
    else if c.inflight.Some? then (c, Join(c.inflight.value))
    else (c.(inflight := Some(|c.calls|), calls := c.calls + [None]), Begin(|c.calls|))
  }

  function Probed(cs: seq<Contributor>, ready: seq<bool>): (r: seq<Status>)
    requires |cs| == |ready|
    ensures |r| == |cs|
  {
    seq(|cs|, i requires 0 <= i < |cs| => Status(cs[i].component, cs[i].probe, ready[i]))
  }

  function Finish(c: Cache, ready: seq<bool>, now: int): Cache
    requires |ready| == |c.contributors|
  {
    var entries := Probed(c.contributors, ready);
    var n := c.(reports := c.reports + [Report(entries, now)], results := Some(|c.reports|), computedAt := now);
    NoteAll(n, entries, now).(inflight := None)
  }

  function Hand(c: Cache, call: nat, report: nat): Cache {
    if call < |c.calls| then c.(calls := c.calls[call := Some(report)]) else c
  }

  // ----- the system -----

  datatype Reader =
    | Asking(at: int, probe: Probe, force: bool)
    | Waiting(at: int, probe: Probe, force: bool, call: nat)
    | Evaluating(at: int, probe: Probe, force: bool, call: nat)
    | Handing(at: int, probe: Probe, force: bool, call: nat, report: nat)
    | Served(at: int, probe: Probe, force: bool, cached: bool, report: nat)
    | GaveUp(at: int, probe: Probe, last: Option<nat>)
    | Gated(at: int, probe: Probe)
    | Stamping(at: int, probe: Probe, out: seq<Status>)

  datatype System = System(now: int, c: Cache, readers: map<nat, Reader>)

  datatype Label =
    | Tick(d: nat)
    | Boot
    | Drain
    | PushFailure(component: string)
    | PushRecovery(component: string)
    | Arrive(t: nat, probe: Probe, force: bool)
    | Ask(t: nat)
    | Complete(t: nat, ready: seq<bool>)
    | HandOut(t: nat)
    | Wake(t: nat)
    | Cancel(t: nat)
    | Copy(t: nat)
    | Return(t: nat, stamp: int)

  function Put(s: System, t: nat, r: Reader): System {
    s.(readers := s.readers[t := r])
  }

  /** The entries of a report a probe sees, with the process entry in front. */
  function Visible(entries: seq<Status>, probe: Probe): seq<Status> {
    if entries == [] then [Status("process", probe, true)]
    else
      var n := |entries| - 1;
      Visible(entries[..n], probe) + (if entries[n].probe == probe then [entries[n]] else [])
  }

  /** A reader that knows where its answer comes from and has not copied it. */
  predicate Done(r: Reader) {
    r.Served? || r.GaveUp? || r.Gated?
  }

  /** What a reader that is done reports if it copies its answer now. */
  function Answer(s: System, r: Reader): seq<Status>
    requires Done(r)
  {
    match r
    case Served(_, probe, _, _, report) =>
      if report < |s.c.reports| then Visible(s.c.reports[report].entries, probe) else []
    case GaveUp(_, probe, last) =>
      if last.Some? && last.value < |s.c.reports| then Visible(s.c.reports[last.value].entries, probe)
      else [Status("process", probe, true)]
    case Gated(_, probe) => [Status("process", probe, false)]
  }

  /** One step of one reader, one component or the clock; a step that is not
      enabled changes nothing. A reader copies its answer outside the lock and
      dates it later, with a time read in between. */
  function Step(s: System, l: Label): System {
    match l
    case Tick(d) => s.(now := s.now + d)
    case Boot => s.(c := SetBooted(s.c))
    case Drain => s.(c := BeginDrain(s.c))
    case PushFailure(component) => s.(c := ReportFailure(s.c, component, s.now))
    case PushRecovery(component) => s.(c := ReportRecovery(s.c, component, s.now))
    case Arrive(t, probe, force) =>
      if t in s.readers then s
      else if ProcessStatus(s.c, probe).1 then Put(s, t, Gated(s.now, probe))
      else Put(s, t, Asking(s.now, probe, force))
    case Ask(t) =>
      if t !in s.readers || !s.readers[t].Asking? then s
      else
        var r := s.readers[t];
        var (c, e) := Enter(s.c, r.force, s.now);
        Put(s.(c := c), t,
            match e
            case FromCache(report) => Served(r.at, r.probe, r.force, true, report)
            case Join(call) => Waiting(r.at, r.probe, r.force, call)
            case Begin(call) => Evaluating(r.at, r.probe, r.force, call))
    case Complete(t, ready) =>
      if t !in s.readers || !s.readers[t].Evaluating? || |ready| != |s.c.contributors| then s
      else
        var r := s.readers[t];
        Put(s.(c := Finish(s.c, ready, s.now)), t, Handing(r.at, r.probe, r.force, r.call, |s.c.reports|))
    case HandOut(t) =>
      if t !in s.readers || !s.readers[t].Handing? then s
      else
        var r := s.readers[t];
        Put(s.(c := Hand(s.c, r.call, r.report)), t, Served(r.at, r.probe, r.force, false, r.report))
    case Wake(t) =>
      if t !in s.readers || !s.readers[t].Waiting? || s.readers[t].call >= |s.c.calls|
         || s.c.calls[s.readers[t].call].None? then s
      else
        var r := s.readers[t];
        Put(s, t, Served(r.at, r.probe, r.force, false, s.c.calls[r.call].value))
    case Cancel(t) =>
      if t !in s.readers || !s.readers[t].Waiting? then s
      else Put(s, t, GaveUp(s.readers[t].at, s.readers[t].probe, s.c.results))
    case Copy(t) =>
      if t !in s.readers || !Done(s.readers[t]) then s
      else Put(s, t, Stamping(s.readers[t].at, s.readers[t].probe, Answer(s, s.readers[t])))
    case Return(t, stamp) =>
      if t !in s.readers || !s.readers[t].Stamping? || !(s.readers[t].at <= stamp <= s.now) then s
      else s.(c := NoteAll(s.c, s.readers[t].out, stamp), readers := s.readers - {t})
  }

  function Initial(contributors: seq<Contributor>, now: int): System {
    System(now, Cache(Starting, contributors, [], None, 0, None, [], map[], []), map[])
  }

  function Run(s: System, ls: seq<Label>): System {
    if ls == [] then s else Step(Run(s, ls[..|ls| - 1]), ls[|ls| - 1])
  }
}
