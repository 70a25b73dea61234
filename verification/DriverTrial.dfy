/**
 A worker tries the offered drivers in order (lib/ptolemy/poller/workers.py:499-578), and the supervisor
 learns from what it reports (lib/ptolemy/poller/managers.py:328-357).
 */
module DriverTrial {
  import opened Basics
  import opened DriverPaths
  import opened PollSupervisor

  /** How one attempt goes.  `Broken`: the fetch succeeds and is reported, but building the messages
      fails afterwards. */
  datatype Attempt = Delivered | Broken | TimesOut | NameUnresolved | Fails

  datatype Failure = NoDriverDefined | Timeout | NameResolution | NoneSuitable

  datatype Ending = Done(driver: string) | Raised(why: Failure)

  /** The attempt at position `i` of `n` ends the trial. */
  predicate Ends(a: Attempt, i: nat, n: nat) {
    a == Delivered || a == NameUnresolved || (a == TimesOut && i == n - 1)
  }

  /** No attempt before `i` ends the trial. */
  ghost predicate GoesOnTo(attempt: nat -> Attempt, i: nat, n: nat) {
    forall j: nat {:trigger attempt(j)} | j < i :: !Ends(attempt(j), j, n)
  }

  /** The drivers reported as successful in the first `i` attempts. */
  function Reported(drivers: seq<string>, attempt: nat -> Attempt, i: nat): seq<string>
    requires i <= |drivers|
  {
    if i == 0 then []
    else Reported(drivers, attempt, i - 1) + if attempt(i - 1) in {Delivered, Broken} then [drivers[i - 1]] else []
  }

  /** What a job carries for the worker: a driver, or a list to probe with. */
  function Offer(driver: Option<string>, probe: Option<seq<string>>): seq<string> {
    if driver.Some? then [driver.value] else if probe.Some? then probe.value else []
  }

  /** The first attempt that ends the trial decides; if none does, no driver was suitable. */
  ghost predicate Outcome(drivers: seq<string>, attempt: nat -> Attempt, ending: Ending, reported: seq<string>) {
    || (exists i: nat ::
          && i < |drivers| && Ends(attempt(i), i, |drivers|) && GoesOnTo(attempt, i, |drivers|)
          && reported == Reported(drivers, attempt, i + 1)
          && ending == (match attempt(i)
                        case Delivered => Done(drivers[i])
                        case NameUnresolved => Raised(NameResolution)
                        case _ => Raised(Timeout)))
    || (&& GoesOnTo(attempt, |drivers|, |drivers|)
        && reported == Reported(drivers, attempt, |drivers|)
        && ending == Raised(NoneSuitable))
  }

  /** poll.  `attempt(i)` is how the driver at position `i` of the offer fares. */
  method Poll(driver: Option<string>, probe: Option<seq<string>>, attempt: nat -> Attempt)
    returns (ending: Ending, reported: seq<string>)
    ensures driver.None? && probe.None? ==> ending == Raised(NoDriverDefined) && reported == []
    ensures driver.Some? || probe.Some? ==> Outcome(Offer(driver, probe), attempt, ending, reported)
    ensures driver.Some? ==> Outcome([driver.value], attempt, ending, reported)
    ensures driver.None? && probe.Some? ==> Outcome(probe.value, attempt, ending, reported)
  {
    var drivers: seq<string> := [];
    if driver.None? && probe.Some? {
      drivers := probe.value;
    } else if driver.Some? {
      drivers := drivers + [driver.value];
    } else {
      return Raised(NoDriverDefined), [];
    }
    ghost var offer := drivers;
    reported := [];
    var i := 0;
    while |drivers| > 0
      invariant i <= |offer| && drivers == offer[i..]
      invariant GoesOnTo(attempt, i, |offer|)
      invariant reported == Reported(offer, attempt, i)
      decreases |drivers|
    {
      var d := drivers[0];
      drivers := drivers[1..];
      match attempt(i) {
        case Delivered =>
          return Done(d), reported + [d];
        case Broken =>
          reported := reported + [d];
        case TimesOut =>
          if |drivers| == 0 {
            return Raised(Timeout), reported;
          }
        case NameUnresolved =>
          return Raised(NameResolution), reported;
        case Fails =>
      }
      i := i + 1;
    }
    return Raised(NoneSuitable), reported;
  }

  // ---------- Learning ----------

  /** The worker framework logs each report as information, and then how the job ended. */
  function LastLines(ending: Ending): (Kind, seq<Message>) {
    match ending
    case Done(_) => (Complete, [])
    case Raised(NoneSuitable) => (Errored, [NoSuitableDriver])
    case Raised(Timeout) => (Errored, [TimedOut])
    case Raised(_) => (Errored, [Other("error")])
  }

  function AfterReports(cfg: Settings, spec: string, reported: seq<string>, known: Option<string>): Option<string> {
    if reported == [] then known
    else
      var n := |reported| - 1;
      Learned(cfg, spec, Info, [SuccessWith(reported[n])], AfterReports(cfg, spec, reported[..n], known))
  }

  /** The driver remembered once all messages about a job are in. */
  function AfterJob(cfg: Settings, spec: string, reported: seq<string>, ending: Ending, known: Option<string>)
    : Option<string>
  {
    var last := LastLines(ending);
    Learned(cfg, spec, last.0, last.1, AfterReports(cfg, spec, reported, known))
  }

  /** What the record of the test says once a job has ended: every error is a failure. */
  lemma EndIsRecorded(cfg: Settings, k: Key, s: TestState, now: real, ending: Ending, next: TestState)
    requires Logged(cfg, k, s, now, LastLines(ending).0, LastLines(ending).1, next)
    ensures next.started == None && next.complete == Some(now)
    ensures next.lastFailed == if ending.Raised? then Some(now) else s.lastFailed
    ensures next.lastTimedOut == if ending == Raised(Timeout) then Some(now) else s.lastTimedOut
    ensures next.lastDriver == if ending == Raised(NoneSuitable) then None else s.lastDriver
  {
    TroubleIsNoted(cfg, k, s, now, LastLines(ending).0, LastLines(ending).1, next);
  }

  lemma LearnedFromOne(cfg: Settings, spec: string, kind: Kind, line: Message, known: Option<string>)
    ensures Learned(cfg, spec, kind, [line], known) ==
            match line
            case NoSuitableDriver => if kind in {Complete, Warning, Errored} then None else known
            case SuccessWith(path) => if kind == Info then Some(StripPath(cfg.driverDir, spec, path)) else known
            case _ => known
  {
    assert [line][..0] == [];
    assert Learned(cfg, spec, kind, [], known) == known;
  }

  lemma AfterOneMoreReport(cfg: Settings, spec: string, reported: seq<string>, path: string, known: Option<string>)
    ensures AfterReports(cfg, spec, reported + [path], known) == Some(StripPath(cfg.driverDir, spec, path))
  {
    assert (reported + [path])[..|reported|] == reported;
    LearnedFromOne(cfg, spec, Info, SuccessWith(path), AfterReports(cfg, spec, reported, known));
  }

  /** What is remembered after the reports: the driver that was reported last, or what was known before. */
  lemma AfterReportsIsLast(cfg: Settings, spec: string, reported: seq<string>, known: Option<string>)
    ensures AfterReports(cfg, spec, reported, known) ==
            if reported == [] then known else Some(StripPath(cfg.driverDir, spec, reported[|reported| - 1]))
  {
    if reported != [] {
      var n := |reported| - 1;
      assert reported == reported[..n] + [reported[n]];
      AfterOneMoreReport(cfg, spec, reported[..n], reported[n], known);
    }
  }

  /** What a job teaches, for every way it can end: only when no driver was suitable is the known one forgotten;
      after a time-out of the last driver, or when the name of the device is not resolved, the driver stays that was
      reported last, even if nothing came of it, and else the old one. */
  lemma JobTeaches(cfg: Settings, spec: string, reported: seq<string>, ending: Ending, known: Option<string>)
    ensures var last := if reported == [] then known
                        else Some(StripPath(cfg.driverDir, spec, reported[|reported| - 1]));
            AfterJob(cfg, spec, reported, ending, known) == if ending == Raised(NoneSuitable) then None else last
    ensures ending.Raised? ==>
              (AfterJob(cfg, spec, reported, ending, known) == None <==>
               ending == Raised(NoneSuitable) || (reported == [] && known == None))
  {
    AfterReportsIsLast(cfg, spec, reported, known);
    var before, last := AfterReports(cfg, spec, reported, known), LastLines(ending);
    if last.1 == [] {
      assert Learned(cfg, spec, last.0, [], before) == before;
    } else {
      LearnedFromOne(cfg, spec, last.0, last.1[0], before);
    }
  }

  /** How a trial ends, told from its attempts. */
  lemma EndsExactlyWhen(drivers: seq<string>, attempt: nat -> Attempt, ending: Ending, reported: seq<string>)
    requires Outcome(drivers, attempt, ending, reported)
    ensures ending.Done? <==> exists i: nat {:trigger attempt(i)} ::
              i < |drivers| && attempt(i) == Delivered && GoesOnTo(attempt, i, |drivers|)
    ensures ending == Raised(NoneSuitable) <==> GoesOnTo(attempt, |drivers|, |drivers|)
    ensures ending == Raised(Timeout) <==>
              |drivers| > 0 && attempt(|drivers| - 1) == TimesOut && GoesOnTo(attempt, |drivers| - 1, |drivers|)
    ensures ending == Raised(NameResolution) <==> exists i: nat {:trigger attempt(i)} ::
              i < |drivers| && attempt(i) == NameUnresolved && GoesOnTo(attempt, i, |drivers|)
  {
  }

  /** One driver that times out: it failed, and the old one stays remembered. */
  lemma TimeOutKeepsDriver(cfg: Settings, spec: string, driver: string, attempt: nat -> Attempt, ending: Ending,
                           reported: seq<string>, known: Option<string>)
    requires attempt(0) == TimesOut && Outcome([driver], attempt, ending, reported)
    ensures ending == Raised(Timeout) && reported == [] && AfterJob(cfg, spec, reported, ending, known) == known
  {
    EndsExactlyWhen([driver], attempt, ending, reported);
    assert Reported([driver], attempt, 0) == [];
    assert Ends(attempt(0), 0, 1);
    JobTeaches(cfg, spec, reported, ending, known);
  }

  /** Two drivers, of which the first fetches but nothing comes of it, and the second times out: the first is
      learned. */
  lemma BrokenDriverIsLearned(cfg: Settings, spec: string, a: string, b: string, attempt: nat -> Attempt,
                              ending: Ending, reported: seq<string>, known: Option<string>)
    requires attempt(0) == Broken && attempt(1) == TimesOut
    requires Outcome(PathsFor(cfg, spec, [a, b]), attempt, ending, reported) && !Occurs(a, Prefix(cfg.driverDir, spec))
    ensures ending == Raised(Timeout) && AfterJob(cfg, spec, reported, ending, known) == Some(a)
  {
    var paths := PathsFor(cfg, spec, [a, b]);
    EndsExactlyWhen(paths, attempt, ending, reported);
    assert Reported(paths, attempt, 0) == [];
    assert Reported(paths, attempt, 1) == [paths[0]];
    assert Reported(paths, attempt, 2) == [paths[0]];
    assert !Ends(attempt(0), 0, 2) && Ends(attempt(1), 1, 2);
    JobTeaches(cfg, spec, reported, ending, known);
    StripUndoesGetPath(cfg.driverDir, spec, a);
  }

  /** A probe that delivers teaches the supervisor the first driver on the list that did not fail, by its
      plain name, unless the name contains the directory prefix; one that finds nothing suitable makes
      it forget. */
  lemma ProbeTeachesFirstWorkingDriver(cfg: Settings, spec: string, names: seq<string>, attempt: nat -> Attempt,
                                       ending: Ending, reported: seq<string>, known: Option<string>)
    requires Outcome(PathsFor(cfg, spec, names), attempt, ending, reported)
    requires forall name <- names :: !Occurs(name, Prefix(cfg.driverDir, spec))
    ensures ending.Done? ==>
              exists i: nat ::
                && i < |names| && attempt(i) == Delivered
                && (forall j: nat {:trigger attempt(j)} | j < i :: attempt(j) in {Broken, TimesOut, Fails})
                && AfterJob(cfg, spec, reported, ending, known) == Some(names[i])
    ensures ending == Raised(NoneSuitable) ==> AfterJob(cfg, spec, reported, ending, known) == None
  {
    JobTeaches(cfg, spec, reported, ending, known);
    if ending.Done? {
      var i := DeliveredAt(PathsFor(cfg, spec, names), attempt, ending, reported);
      StripUndoesGetPath(cfg.driverDir, spec, names[i]);
      assert names[i] in names;
    }
  }

  /** Where the driver is that delivered, which is the last one reported. */
  lemma DeliveredAt(drivers: seq<string>, attempt: nat -> Attempt, ending: Ending, reported: seq<string>)
    returns (i: nat)
    requires Outcome(drivers, attempt, ending, reported) && ending.Done?
    ensures i < |drivers| && attempt(i) == Delivered
    ensures forall j: nat {:trigger attempt(j)} | j < i :: attempt(j) in {Broken, TimesOut, Fails}
    ensures reported != [] && reported[|reported| - 1] == drivers[i]
  {
    i :| i < |drivers| && Ends(attempt(i), i, |drivers|) && GoesOnTo(attempt, i, |drivers|)
         && reported == Reported(drivers, attempt, i + 1) && attempt(i) == Delivered;
  }

  /** The last attempt before `i` that was broken. */
  ghost predicate LastBroken(attempt: nat -> Attempt, i: nat, j: nat) {
    j < i && attempt(j) == Broken && forall k: nat {:trigger attempt(k)} | j < k < i :: attempt(k) != Broken
  }

  lemma {:induction false} ReportedLast(drivers: seq<string>, attempt: nat -> Attempt, i: nat)
    requires i <= |drivers| && forall j: nat {:trigger attempt(j)} | j < i :: attempt(j) != Delivered
    ensures Reported(drivers, attempt, i) == [] <==> forall j: nat {:trigger attempt(j)} | j < i :: attempt(j) != Broken
    ensures forall j: nat :: LastBroken(attempt, i, j) ==>
              Reported(drivers, attempt, i) != []
              && Reported(drivers, attempt, i)[|Reported(drivers, attempt, i)| - 1] == drivers[j]
    ensures Reported(drivers, attempt, i) != [] ==> exists j: nat :: LastBroken(attempt, i, j)
  {
    if i > 0 {
      ReportedLast(drivers, attempt, i - 1);
      if attempt(i - 1) == Broken {
        assert LastBroken(attempt, i, i - 1);
      } else {
        forall j: nat ensures LastBroken(attempt, i, j) <==> LastBroken(attempt, i - 1, j) {
        }
        var m := i - 1;
        if j: nat :| LastBroken(attempt, m, j) {
          assert LastBroken(attempt, i, j);
        }
      }
    }
  }

  /** A probe that ends in a time-out or without the address of the device: the old driver stays, unless one that
      fetched but came to nothing was tried before; then the last such is remembered. */
  lemma BrokenOffProbeTeaches(cfg: Settings, spec: string, names: seq<string>, attempt: nat -> Attempt,
                              ending: Ending, reported: seq<string>, known: Option<string>)
    requires Outcome(PathsFor(cfg, spec, names), attempt, ending, reported)
    requires forall name <- names :: !Occurs(name, Prefix(cfg.driverDir, spec))
    requires ending in {Raised(Timeout), Raised(NameResolution)}
    ensures exists i: nat ::
              && i < |names| && Ends(attempt(i), i, |names|) && GoesOnTo(attempt, i, |names|)
              && (forall j: nat :: LastBroken(attempt, i, j) ==>
                    AfterJob(cfg, spec, reported, ending, known) == Some(names[j]))
              && ((forall j: nat :: !LastBroken(attempt, i, j)) ==>
                    AfterJob(cfg, spec, reported, ending, known) == known)
  {
    var paths := PathsFor(cfg, spec, names);
    var i: nat :| i < |paths| && Ends(attempt(i), i, |paths|) && GoesOnTo(attempt, i, |paths|)
                  && reported == Reported(paths, attempt, i + 1) && attempt(i) in {TimesOut, NameUnresolved};
    forall j: nat | j < i ensures attempt(j) != Delivered {
      assert !Ends(attempt(j), j, |paths|);
    }
    assert reported == Reported(paths, attempt, i);
    ReportedLast(paths, attempt, i);
    JobTeaches(cfg, spec, reported, ending, known);
    forall j: nat | LastBroken(attempt, i, j) ensures AfterJob(cfg, spec, reported, ending, known) == Some(names[j]) {
      assert names[j] in names;
      StripUndoesGetPath(cfg.driverDir, spec, names[j]);
    }
  }
}
