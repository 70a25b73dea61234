/**
 What runs of the poll supervisor guarantee: throttling, the reprobe timer, and what is ever known about
 drivers (lib/ptolemy/poller/managers.py:188-374).  Cache access is one atomic step per request or log
 message, and the clock never goes back.
 */
module PollRuns {
  import opened Basics
  import opened DriverPaths
  import opened PollSupervisor
  import opened DriverTrial

  datatype Event =
    | Request(key: Key, at: real, decision: Decision)
    | Log(key: Key, at: real, kind: Kind, lines: seq<Message>)

  ghost predicate Step(cfg: Settings, before: Cache, ev: Event, after: Cache) {
    match ev
    case Request(k, at, d) =>
      && k in after && after == before[k := after[k]]
      && Verdict(cfg, k, Cached(before, k), at, d) && Recorded(cfg, k, Cached(before, k), at, d, after[k])
    case Log(k, at, kind, lines) =>
      if k in before then
        k in after && after == before[k := after[k]] && Logged(cfg, k, before[k], at, kind, lines, after[k])
      else after == before
  }

  ghost predicate IsRun(cfg: Settings, caches: seq<Cache>, events: seq<Event>) {
    && |caches| == |events| + 1 && caches[0] == map[]
    && (forall i {:trigger events[i]} | 0 <= i < |events| :: Step(cfg, caches[i], events[i], caches[i + 1]))
    && (forall i, j | 0 <= i <= j < |events| :: events[i].at <= events[j].at)
  }

  ghost predicate AcceptedAt(events: seq<Event>, k: Key, i: int) {
    0 <= i < |events| && events[i].Request? && events[i].key == k && Accepted(events[i].decision)
  }

  // ---------- Throttling ----------

  /** Entries never leave the cache, and the time of the last counted request only moves forward. */
  lemma {:induction false} RecvdSince(cfg: Settings, caches: seq<Cache>, events: seq<Event>, k: Key, i: nat, j: nat)
    requires IsRun(cfg, caches, events) && AcceptedAt(events, k, i) && i < j < |caches|
    ensures k in caches[j] && caches[j][k].recvd.Some? && caches[j][k].recvd.value >= events[i].at
    decreases j - i
  {
    assert Step(cfg, caches[j - 1], events[j - 1], caches[j]);
    if i < j - 1 {
      RecvdSince(cfg, caches, events, k, i, j - 1);
    }
  }

  /** Two accepted jobs for one key are at least the received throttle apart. */
  lemma AcceptedJobsAreApart(cfg: Settings, caches: seq<Cache>, events: seq<Event>, k: Key, i: nat, j: nat)
    requires IsRun(cfg, caches, events) && i < j && AcceptedAt(events, k, i) && AcceptedAt(events, k, j)
    ensures events[j].at - events[i].at >= cfg.receivedThrottle
  {
    RecvdSince(cfg, caches, events, k, i, j);
    assert Step(cfg, caches[j], events[j], caches[j + 1]);
  }

  /** Event `i` reports the end of a test that is in the cache. */
  ghost predicate CompletesAt(caches: seq<Cache>, events: seq<Event>, k: Key, i: int)
    requires |caches| == |events| + 1
  {
    && 0 <= i < |events| && events[i].Log? && events[i].key == k && events[i].kind in {Complete, Errored}
    && k in caches[i]
  }

  lemma {:induction false} CompleteSince(cfg: Settings, caches: seq<Cache>, events: seq<Event>, k: Key, i: nat, j: nat)
    requires IsRun(cfg, caches, events) && CompletesAt(caches, events, k, i) && i < j < |caches|
    ensures k in caches[j] && caches[j][k].complete.Some? && caches[j][k].complete.value >= events[i].at
    decreases j - i
  {
    assert Step(cfg, caches[j - 1], events[j - 1], caches[j]);
    if i < j - 1 {
      CompleteSince(cfg, caches, events, k, i, j - 1);
    }
  }

  /** No job is accepted within the complete throttle of a completion. */
  lemma NothingAcceptedAfterCompletion(cfg: Settings, caches: seq<Cache>, events: seq<Event>, k: Key, i: nat, j: nat)
    requires IsRun(cfg, caches, events) && i < j && CompletesAt(caches, events, k, i) && AcceptedAt(events, k, j)
    ensures events[j].at - events[i].at >= cfg.completeThrottle
  {
    CompleteSince(cfg, caches, events, k, i, j);
    assert Step(cfg, caches[j], events[j], caches[j + 1]);
  }

  // ---------- The reprobe timer ----------

  ghost predicate SaneTimer(cfg: Settings) {
    0.0 <= cfg.reprobePeriod && 0.0 <= cfg.reprobeSpread <= 1.0
  }

  function LongestWait(cfg: Settings): real {
    cfg.reprobePeriod + cfg.reprobeSpread * cfg.reprobePeriod
  }

  function ShortestWait(cfg: Settings): real {
    cfg.reprobePeriod - cfg.reprobeSpread * cfg.reprobePeriod
  }

  lemma WaitsArePositive(cfg: Settings)
    requires SaneTimer(cfg)
    ensures 0.0 <= ShortestWait(cfg) <= LongestWait(cfg)
  {
    assert cfg.reprobeSpread * cfg.reprobePeriod <= 1.0 * cfg.reprobePeriod;
  }

  /** No next probe lies further ahead than the longest wait after the latest event. */
  lemma {:induction false} ProbeNeverFarAhead(cfg: Settings, caches: seq<Cache>, events: seq<Event>, k: Key, n: nat)
    requires IsRun(cfg, caches, events) && SaneTimer(cfg) && n <= |events| && k in caches[n]
    ensures n > 0
    ensures caches[n][k].nextProbe.Some? && caches[n][k].nextProbe.value <= events[n - 1].at + LongestWait(cfg)
    decreases n
  {
    if n > 0 {
      assert Step(cfg, caches[n - 1], events[n - 1], caches[n]);
      if k in caches[n - 1] {
        ProbeNeverFarAhead(cfg, caches, events, k, n - 1);
      }
    }
  }

  /** After every request the next probe is set, not in the past, and at most period * (1 + spread) away. */
  lemma ProbeIsAhead(cfg: Settings, caches: seq<Cache>, events: seq<Event>, i: nat)
    requires IsRun(cfg, caches, events) && SaneTimer(cfg) && i < |events| && events[i].Request?
    ensures var s := caches[i + 1][events[i].key];
            s.nextProbe.Some? && events[i].at <= s.nextProbe.value <= events[i].at + LongestWait(cfg)
  {
    assert Step(cfg, caches[i], events[i], caches[i + 1]);
    WaitsArePositive(cfg);
    ProbeNeverFarAhead(cfg, caches, events, events[i].key, i + 1);
  }

  /** Nothing about the driver of the test is learned from the events `i` to `j`. */
  ghost predicate NothingLearnedFrom(events: seq<Event>, k: Key, i: nat, j: nat) {
    forall m {:trigger events[m]} ::
      i <= m < j <= |events| && events[m].Log? && events[m].key == k && events[m].kind == Info ==>
        forall path :: SuccessWith(path) !in events[m].lines
  }

  lemma {:induction false} StillUnlearned(cfg: Settings, spec: string, kind: Kind, lines: seq<Message>)
    requires kind == Info ==> forall path :: SuccessWith(path) !in lines
    ensures Learned(cfg, spec, kind, lines, None) == None
  {
    if lines != [] {
      assert lines[|lines| - 1] in lines;
      StillUnlearned(cfg, spec, kind, lines[..|lines| - 1]);
    }
  }

  /** A completed test without a driver that is not forced. */
  ghost predicate Hopeless(cfg: Settings, cache: Cache, k: Key) {
    k in cache && cache[k].complete.Some? && cache[k].lastDriver.None? && !IsForced(cfg, k, cache[k])
  }

  lemma {:induction false} StillHopeless(cfg: Settings, caches: seq<Cache>, events: seq<Event>, k: Key, i: nat, j: nat)
    requires IsRun(cfg, caches, events) && i <= j < |caches|
    requires Hopeless(cfg, caches[i], k) && NothingLearnedFrom(events, k, i, j)
    ensures Hopeless(cfg, caches[j], k)
    decreases j - i
  {
    if i < j {
      StillHopeless(cfg, caches, events, k, i, j - 1);
      var ev := events[j - 1];
      assert Step(cfg, caches[j - 1], ev, caches[j]);
      if ev.Log? && ev.key == k {
        HeardAreLines(ev.kind, ev.lines);
        StillUnlearned(cfg, k.spec, ev.kind, Heard(ev.kind, ev.lines));
      }
    }
  }

  /** Backoff over a run: whenever a completed test has no driver, then as long as nothing is learned about it, no job
      for it is accepted before the time of its next probe, and those that are carry the whole priority list. */
  lemma BackoffLastsUntilProbe(cfg: Settings, caches: seq<Cache>, events: seq<Event>, k: Key, i: nat, j: nat)
    requires IsRun(cfg, caches, events) && SaneTimer(cfg) && i <= j < |events|
    requires Hopeless(cfg, caches[i], k) && NothingLearnedFrom(events, k, i, j) && AcceptedAt(events, k, j)
    ensures caches[i][k].nextProbe.Some? && events[j].at >= caches[i][k].nextProbe.value
    ensures k.spec in cfg.priorities && events[j].decision == Probe(PathsFor(cfg, k.spec, cfg.priorities[k.spec]))
  {
    StillHopeless(cfg, caches, events, k, i, j);
    ProbeNeverFarAhead(cfg, caches, events, k, i);
    ProbeOnlyMovesForward(cfg, caches, events, k, caches[i][k].nextProbe.value, i, j);
    assert Step(cfg, caches[j], events[j], caches[j + 1]);
  }

  /** Such a test, not forced, gets the whole priority list at a request that comes once the probe time
      is reached and is past both throttles. */
  lemma BackoffEndsInProbe(cfg: Settings, caches: seq<Cache>, events: seq<Event>, i: nat)
    requires IsRun(cfg, caches, events) && i < |events| && events[i].Request? && events[i].key in caches[i]
    requires var k, s, now := events[i].key, caches[i][events[i].key], events[i].at;
             && s.lastDriver.None? && s.nextProbe.Some? && s.nextProbe.value <= now
             && !JustCompleted(cfg, s, now) && !JustRequested(cfg, s, now)
             && !IsForced(cfg, k, s) && k.spec in cfg.priorities
    ensures var k := events[i].key;
            events[i].decision == Probe(PathsFor(cfg, k.spec, cfg.priorities[k.spec]))
  {
    assert Step(cfg, caches[i], events[i], caches[i + 1]);
    var d := events[i].decision;
    if d.Refused? {
      match d.why {
        case InvalidJob => assert false;
        case CannotBePolled => assert false;
        case CompletedRecently => assert false;
        case RequestedTooOften => assert false;
        case UnknownSpec => assert false;
      }
    }
  }

  /** But a request that a throttle refuses after the probe time uses the probe up: the next one is a
      whole waiting time away, and until then the backoff goes on. */
  lemma ThrottledRequestSpendsTheProbe(cfg: Settings, caches: seq<Cache>, events: seq<Event>, i: nat)
    requires IsRun(cfg, caches, events) && i < |events| && events[i].Request? && events[i].key in caches[i]
    requires var s, now := caches[i][events[i].key], events[i].at;
             && s.nextProbe.Some? && s.nextProbe.value < now
             && (JustCompleted(cfg, s, now) || JustRequested(cfg, s, now))
    ensures var next := caches[i + 1][events[i].key];
            && !Accepted(events[i].decision)
            && next.nextProbe.Some? && next.nextProbe.value >= events[i].at + ShortestWait(cfg)
            && next.recvd == caches[i][events[i].key].recvd
  {
    assert Step(cfg, caches[i], events[i], caches[i + 1]);
  }

  /** A probe for a test whose driver is known. */
  ghost predicate ProbesKnown(caches: seq<Cache>, events: seq<Event>, k: Key, i: int)
    requires |caches| == |events| + 1
  {
    && 0 <= i < |events| && events[i].Request? && events[i].key == k && events[i].decision.Probe?
    && k in caches[i] && caches[i][k].lastDriver.Some?
  }

  lemma {:induction false} ProbeOnlyMovesForward(cfg: Settings, caches: seq<Cache>, events: seq<Event>, k: Key,
                                                 t: real, i: nat, j: nat)
    requires IsRun(cfg, caches, events) && SaneTimer(cfg) && i <= j < |caches|
    requires k in caches[i] && caches[i][k].nextProbe.Some? && caches[i][k].nextProbe.value >= t
    ensures k in caches[j] && caches[j][k].nextProbe.Some? && caches[j][k].nextProbe.value >= t
    decreases j - i
  {
    if i < j {
      ProbeOnlyMovesForward(cfg, caches, events, k, t, i, j - 1);
      assert Step(cfg, caches[j - 1], events[j - 1], caches[j]);
      WaitsArePositive(cfg);
    }
  }

  /** With a known driver, probes are more than period * (1 - spread) apart. */
  lemma KnownDriverProbesAreRare(cfg: Settings, caches: seq<Cache>, events: seq<Event>, k: Key, i: nat, j: nat)
    requires IsRun(cfg, caches, events) && SaneTimer(cfg) && i < j
    requires ProbesKnown(caches, events, k, i) && ProbesKnown(caches, events, k, j)
    ensures events[j].at - events[i].at > ShortestWait(cfg)
  {
    assert Step(cfg, caches[i], events[i], caches[i + 1]);
    assert Step(cfg, caches[j], events[j], caches[j + 1]);
    ProbeOnlyMovesForward(cfg, caches, events, k, events[i].at + ShortestWait(cfg), i + 1, j);
  }

  // ---------- Drivers ----------

  /** The names a test may be polled with: the priority list of its spec and its forced driver. */
  ghost predicate KnownName(cfg: Settings, k: Key, name: string) {
    || (k.spec in cfg.priorities && name in cfg.priorities[k.spec])
    || (k in cfg.forced && name == cfg.forced[k] && name != "")
  }

  /** The paths that the first `n` events offered to workers for `k`. */
  ghost predicate Offered(events: seq<Event>, k: Key, path: string, n: nat)
    requires n <= |events|
  {
    exists i :: 0 <= i < n && Offers(events[i], k, path)
  }

  ghost predicate Offers(ev: Event, k: Key, path: string) {
    && ev.Request? && ev.key == k
    && ((ev.decision.Run? && ev.decision.driver == path) || (ev.decision.Probe? && path in ev.decision.drivers))
  }

  /** The drivers a job carries for the worker. */
  function Carried(d: Decision): seq<string>
    requires Accepted(d)
  {
    if d.Run? then Offer(Some(d.driver), None) else Offer(None, Some(d.drivers))
  }

  /** A worker that got one of the first `n` jobs for `k` tried the drivers of the job, and reported success with
      `path`. */
  ghost predicate FromTrial(events: seq<Event>, k: Key, path: string, n: nat)
    requires n <= |events|
  {
    exists i :: 0 <= i < n && TrialReports(events[i], k, path)
  }

  ghost predicate TrialReports(ev: Event, k: Key, path: string) {
    && ev.Request? && ev.key == k && Accepted(ev.decision)
    && exists attempt, ending, reported :: Outcome(Carried(ev.decision), attempt, ending, reported) && path in reported
  }

  /** Successes are only told by workers, about drivers they tried. */
  ghost predicate WorkersReport(events: seq<Event>) {
    forall i {:trigger events[i]} :: 0 <= i < |events| && events[i].Log? ==>
      forall path :: SuccessWith(path) in events[i].lines ==> FromTrial(events, events[i].key, path, i)
  }

  lemma {:induction false} ReportedAreTried(drivers: seq<string>, attempt: nat -> Attempt, i: nat)
    requires i <= |drivers|
    ensures forall d <- Reported(drivers, attempt, i) :: d in drivers
  {
    if i > 0 {
      ReportedAreTried(drivers, attempt, i - 1);
    }
  }

  lemma OnlyCarriedAreReported(drivers: seq<string>, attempt: nat -> Attempt, ending: Ending, reported: seq<string>)
    requires Outcome(drivers, attempt, ending, reported)
    ensures forall d <- reported :: d in drivers
  {
    forall i: nat | i <= |drivers| ensures forall d <- Reported(drivers, attempt, i) :: d in drivers {
      ReportedAreTried(drivers, attempt, i);
    }
  }

  /** What workers report was offered to them. */
  lemma OnlyOffersAreReported(events: seq<Event>, k: Key, path: string, n: nat)
    requires n <= |events| && FromTrial(events, k, path, n)
    ensures Offered(events, k, path, n)
  {
    var i :| 0 <= i < n && TrialReports(events[i], k, path);
    var attempt, ending, reported :|
      Outcome(Carried(events[i].decision), attempt, ending, reported) && path in reported;
    OnlyCarriedAreReported(Carried(events[i].decision), attempt, ending, reported);
    assert Offers(events[i], k, path);
  }

  /** Forced drivers are named, and no name contains the directory prefix of its own spec. */
  ghost predicate CleanNames(cfg: Settings) {
    && (forall k <- cfg.forced :: cfg.forced[k] != "")
    && (forall k: Key, name: string {:trigger KnownName(cfg, k, name)} ::
          KnownName(cfg, k, name) ==> !Occurs(name, Prefix(cfg.driverDir, k.spec)))
  }

  /** What is cached about drivers is always a known name. */
  ghost predicate DriversKnown(cfg: Settings, cache: Cache) {
    forall k <- cache ::
      && (cache[k].lastDriver.Some? ==> KnownName(cfg, k, cache[k].lastDriver.value))
      && (Named(cache[k].forceDriver) ==> KnownName(cfg, k, cache[k].forceDriver.value))
  }

  /** The path is that of a known name. */
  ghost predicate KnownPath(cfg: Settings, k: Key, path: string) {
    exists name :: KnownName(cfg, k, name) && path == GetPath(cfg.driverDir, k.spec, name)
  }

  /** A job that goes out carries known paths only, and a probe carries the whole list. */
  lemma OffersAreKnown(cfg: Settings, before: Cache, ev: Event, after: Cache, path: string)
    requires Step(cfg, before, ev, after) && DriversKnown(cfg, before) && CleanNames(cfg)
    requires Offers(ev, ev.key, path)
    ensures KnownPath(cfg, ev.key, path)
  {
    var k, s := ev.key, Cached(before, ev.key);
    if ev.decision.Run? {
      var name := Choice(cfg, k, s);
      assert KnownName(cfg, k, name);
    } else {
      var i :| 0 <= i < |ev.decision.drivers| && ev.decision.drivers[i] == path;
      assert KnownName(cfg, k, cfg.priorities[k.spec][i]);
    }
  }

  lemma {:induction false} LearnedIsKnown(cfg: Settings, k: Key, kind: Kind, lines: seq<Message>, known: Option<string>)
    requires CleanNames(cfg)
    requires known.Some? ==> KnownName(cfg, k, known.value)
    requires forall path :: SuccessWith(path) in lines ==> KnownPath(cfg, k, path)
    ensures var l := Learned(cfg, k.spec, kind, lines, known); l.Some? ==> KnownName(cfg, k, l.value)
  {
    if lines != [] {
      var n := |lines| - 1;
      LearnedIsKnown(cfg, k, kind, lines[..n], known);
      if lines[n].SuccessWith? {
        var path := lines[n].path;
        assert SuccessWith(path) in lines;
        var name :| KnownName(cfg, k, name) && path == GetPath(cfg.driverDir, k.spec, name);
        StripUndoesGetPath(cfg.driverDir, k.spec, name);
      }
    }
  }

  /** Driver learning over all runs: with clean names, what is cached is always a known name, and every path ever
      offered is the path of a known name. */
  lemma {:induction false} OnlyKnownDrivers(cfg: Settings, caches: seq<Cache>, events: seq<Event>, n: nat)
    requires IsRun(cfg, caches, events) && WorkersReport(events) && CleanNames(cfg) && n <= |events|
    ensures DriversKnown(cfg, caches[n])
    ensures forall k, path | Offered(events, k, path, n) :: KnownPath(cfg, k, path)
  {
    if n > 0 {
      OnlyKnownDrivers(cfg, caches, events, n - 1);
      var ev := events[n - 1];
      assert Step(cfg, caches[n - 1], ev, caches[n]);
      forall k, path | Offered(events, k, path, n) ensures KnownPath(cfg, k, path) {
        if !Offered(events, k, path, n - 1) {
          OffersAreKnown(cfg, caches[n - 1], ev, caches[n], path);
        }
      }
      if ev.Log? && ev.key in caches[n - 1] {
        HeardAreLines(ev.kind, ev.lines);
        forall path | SuccessWith(path) in ev.lines ensures KnownPath(cfg, ev.key, path) {
          OnlyOffersAreReported(events, ev.key, path, n - 1);
        }
        LearnedIsKnown(cfg, ev.key, ev.kind, Heard(ev.kind, ev.lines), caches[n - 1][ev.key].lastDriver);
      }
    }
  }
}
