/**
 Where the poll supervisor falls short: jobs that go out without a driver, and probes that are spent for nothing
 (lib/ptolemy/poller/managers.py:150-299).
 */
module PollFailures {
  import opened Basics
  import opened DriverPaths
  import opened PollSupervisor
  import opened DriverTrial
  import opened PollRuns

  // ---------- Jobs without a driver ----------

  /** The name of no driver: the empty one, or the text that Python makes of no name. */
  predicate Blank(name: string) {
    name == "" || name == NO_DRIVER
  }

  /** No path that the job carries is that of a driver. */
  ghost predicate Driverless(cfg: Settings, k: Key, d: Decision)
    requires Accepted(d)
  {
    forall path <- Carried(d) :: exists name :: Blank(name) && path == GetPath(cfg.driverDir, k.spec, name)
  }

  lemma BlankPath(cfg: Settings, spec: string, name: string)
    ensures (exists n :: Blank(n) && GetPath(cfg.driverDir, spec, name) == GetPath(cfg.driverDir, spec, n))
            <==> Blank(name)
  {
    if n :| Blank(n) && GetPath(cfg.driverDir, spec, name) == GetPath(cfg.driverDir, spec, n) {
      PathsAreDistinct(cfg.driverDir, spec, name, n);
    }
  }

  /** The file of forced drivers has a blank for the test; an empty one leaves the choice to what is remembered. */
  predicate ForcedBlank(cfg: Settings, k: Key, s: TestState) {
    && k in cfg.forced && Blank(cfg.forced[k])
    && (cfg.forced[k] == "" && s.lastDriver.Some? ==> Blank(s.lastDriver.value))
  }

  /** A test that is not forced is probed, and the list for its spec names no driver. */
  predicate BlankList(cfg: Settings, k: Key, s: TestState, now: real) {
    && k !in cfg.forced && (ProbeDue(s, now) || s.lastDriver.None?)
    && k.spec in cfg.priorities && forall name <- cfg.priorities[k.spec] :: Blank(name)
  }

  /** A test that is neither forced nor due for a probe runs with a blank that is remembered for it. */
  predicate RememberedBlank(cfg: Settings, k: Key, s: TestState, now: real) {
    k !in cfg.forced && !ProbeDue(s, now) && s.lastDriver.Some? && Blank(s.lastDriver.value)
  }

  /** What is forced is what the file says, over any run. */
  lemma {:induction false} ForcedIsFromFile(cfg: Settings, caches: seq<Cache>, events: seq<Event>, k: Key, n: nat)
    requires IsRun(cfg, caches, events) && n <= |events|
    ensures var forced := Cached(caches[n], k).forceDriver;
            forced == None || (k in cfg.forced && forced == Some(cfg.forced[k]))
  {
    if n > 0 {
      ForcedIsFromFile(cfg, caches, events, k, n - 1);
      assert Step(cfg, caches[n - 1], events[n - 1], caches[n]);
    }
  }

  /** The driver a job runs with is blank. */
  lemma BlankChoice(cfg: Settings, k: Key, s: TestState)
    requires k in cfg.forced || !Named(s.forceDriver)
    ensures Blank(Choice(cfg, k, s)) <==>
            if k in cfg.forced then ForcedBlank(cfg, k, s) else s.lastDriver.None? || Blank(s.lastDriver.value)
  {
  }

  /** Over any run, a job that goes out carries no driver exactly in one of the three cases. */
  lemma DriverlessExactlyWhen(cfg: Settings, caches: seq<Cache>, events: seq<Event>, k: Key, i: nat)
    requires IsRun(cfg, caches, events) && i < |events| && AcceptedAt(events, k, i)
    ensures var s, now := Cached(caches[i], k), events[i].at;
            Driverless(cfg, k, events[i].decision) <==>
            ForcedBlank(cfg, k, s) || BlankList(cfg, k, s, now) || RememberedBlank(cfg, k, s, now)
  {
    var s, now, d := Cached(caches[i], k), events[i].at, events[i].decision;
    ForcedIsFromFile(cfg, caches, events, k, i);
    assert Step(cfg, caches[i], events[i], caches[i + 1]);
    if d.Run? {
      BlankPath(cfg, k.spec, Choice(cfg, k, s));
      BlankChoice(cfg, k, s);
      assert d.driver in Carried(d);
    } else {
      BlankProbe(cfg, k, d);
    }
  }

  lemma BlankProbe(cfg: Settings, k: Key, d: Decision)
    requires k.spec in cfg.priorities && d == Probe(PathsFor(cfg, k.spec, cfg.priorities[k.spec]))
    ensures Driverless(cfg, k, d) <==> forall name <- cfg.priorities[k.spec] :: Blank(name)
  {
    var names := cfg.priorities[k.spec];
    forall i | 0 <= i < |names|
      ensures Blank(names[i]) <==> exists n :: Blank(n) && Carried(d)[i] == GetPath(cfg.driverDir, k.spec, n)
    {
      BlankPath(cfg, k.spec, names[i]);
    }
    if Driverless(cfg, k, d) {
      forall name | name in names ensures Blank(name) {
        var i :| 0 <= i < |names| && names[i] == name;
        assert Carried(d)[i] in Carried(d);
      }
    }
  }

  /** Which of them remain when names are clean: a forced driver that is called None, a list without a driver, and a
      blank from the list that was remembered.  When no configured name is blank, only an empty list remains. */
  lemma DriverlessWithCleanNames(cfg: Settings, caches: seq<Cache>, events: seq<Event>, k: Key, i: nat)
    requires IsRun(cfg, caches, events) && i < |events| && AcceptedAt(events, k, i)
    requires CleanNames(cfg) && WorkersReport(events)
    ensures var s, now, d := Cached(caches[i], k), events[i].at, events[i].decision;
            && (Driverless(cfg, k, d) <==>
                  || (k in cfg.forced && cfg.forced[k] == NO_DRIVER)
                  || BlankList(cfg, k, s, now)
                  || (RememberedBlank(cfg, k, s, now) && KnownName(cfg, k, s.lastDriver.value)))
            && ((forall name :: KnownName(cfg, k, name) ==> !Blank(name)) ==>
                  (Driverless(cfg, k, d) <==> d == Probe([])))
  {
    var s, now, d := Cached(caches[i], k), events[i].at, events[i].decision;
    DriverlessExactlyWhen(cfg, caches, events, k, i);
    OnlyKnownDrivers(cfg, caches, events, i);
    assert Step(cfg, caches[i], events[i], caches[i + 1]);
    if forall name :: KnownName(cfg, k, name) ==> !Blank(name) {
      if BlankList(cfg, k, s, now) {
        assert forall name <- cfg.priorities[k.spec] :: KnownName(cfg, k, name);
        assert cfg.priorities[k.spec] != [] ==> cfg.priorities[k.spec][0] in cfg.priorities[k.spec];
      }
      if k in cfg.forced {
        assert KnownName(cfg, k, cfg.forced[k]);
      }
    }
  }

  // ---------- Runs in which it happens ----------

  /** Probes every 100 s, throttles of 30 s and 15 s. */
  ghost function Timers(priorities: map<string, seq<string>>, forced: map<Key, string>): Settings {
    Settings("drivers/", 30.0, 15.0, 2.0, 100.0, 0.0, priorities, forced)
  }

  const TEST := Key("switch", "port")

  /** After the first request for a test at time 0. */
  ghost function Requested(cfg: Settings): TestState {
    INITIAL.(recvd := Some(0.0), nextProbe := Some(100.0), forceDriver := ForcedAfter(cfg, TEST, INITIAL))
  }

  /** The file of forced drivers has the test without a name. */
  lemma ForcedWithoutName(cfg: Settings, d: Decision, caches: seq<Cache>, events: seq<Event>)
    requires cfg == Timers(map["port" := ["a"]], map[TEST := ""])
    requires d == Run(GetPath("drivers/", "port", NO_DRIVER)) && events == [Request(TEST, 0.0, d)]
    requires caches == [map[], map[TEST := Requested(cfg)]]
    ensures IsRun(cfg, caches, events) && AcceptedAt(events, TEST, 0) && Driverless(cfg, TEST, d)
  {
    assert Step(cfg, caches[0], events[0], caches[1]);
    DriverlessExactlyWhen(cfg, caches, events, TEST, 0);
  }

  /** The list of drivers for a spec is empty. */
  lemma EmptyList(cfg: Settings, d: Decision, caches: seq<Cache>, events: seq<Event>)
    requires cfg == Timers(map["port" := []], map[])
    requires d == Probe([]) && events == [Request(TEST, 0.0, d)]
    requires caches == [map[], map[TEST := Requested(cfg)]]
    ensures IsRun(cfg, caches, events) && AcceptedAt(events, TEST, 0) && Driverless(cfg, TEST, d)
  {
    assert Step(cfg, caches[0], events[0], caches[1]);
  }

  /** A success with the mere directory is remembered as the empty name, and the next job runs with that. */
  lemma EmptyNameRemembered(cfg: Settings, d: Decision, d2: Decision, caches: seq<Cache>, events: seq<Event>)
    requires cfg == Timers(map["port" := [""]], map[])
    requires d == Probe([GetPath("drivers/", "port", "")]) && d2 == Run(GetPath("drivers/", "port", ""))
    requires events == [Request(TEST, 0.0, d), Log(TEST, 1.0, Info, [SuccessWith(GetPath("drivers/", "port", ""))]),
                        Request(TEST, 40.0, d2)]
    requires var s := Requested(cfg).(lastDriver := Some(""));
             caches == [map[], map[TEST := Requested(cfg)], map[TEST := s], map[TEST := s.(recvd := Some(40.0))]]
    ensures IsRun(cfg, caches, events) && AcceptedAt(events, TEST, 2) && Driverless(cfg, TEST, d2)
  {
    StripUndoesGetPath("drivers/", "port", "");
    LearnedFromOne(cfg, "port", Info, SuccessWith(GetPath("drivers/", "port", "")), None);
    assert Heard(Info, events[1].lines) == events[1].lines;
    forall i | 0 <= i < 3 ensures Step(cfg, caches[i], events[i], caches[i + 1]) {
    }
    DriverlessExactlyWhen(cfg, caches, events, TEST, 2);
  }

  /** A probe that is due when the test has just completed is spent: the request is refused, and those that follow
      are refused until the probe after it. */
  lemma ProbeIsSpent(cfg: Settings, d: Decision, caches: seq<Cache>, events: seq<Event>)
    requires cfg == Timers(map["port" := ["a"]], map[]) && d == Probe([GetPath("drivers/", "port", "a")])
    requires events == [Request(TEST, 0.0, d), Log(TEST, 95.0, Errored, [NoSuitableDriver]),
                        Request(TEST, 101.0, Refused(CompletedRecently)), Request(TEST, 200.0, Refused(CannotBePolled))]
    requires var s := Requested(cfg).(complete := Some(95.0), lastFailed := Some(95.0));
             caches == [map[], map[TEST := Requested(cfg)], map[TEST := s], map[TEST := s.(nextProbe := Some(201.0))],
                        map[TEST := s.(nextProbe := Some(201.0), recvd := Some(200.0))]]
    ensures IsRun(cfg, caches, events)
  {
    LearnedFromOne(cfg, "port", Errored, NoSuitableDriver, None);
    forall i | 0 <= i < 4 ensures Step(cfg, caches[i], events[i], caches[i + 1]) {
    }
  }
}
