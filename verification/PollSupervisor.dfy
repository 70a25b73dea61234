/**
 The poll supervisor (lib/ptolemy/poller/managers.py:38-374): which requests it lets through, which
 drivers it offers to a worker, and what it learns from the worker's log messages.
 */
module PollSupervisor {
  import opened Basics
  import opened DriverPaths

  datatype Key = Key(device: string, spec: string)

  /** Thresholds and driver lists.  Times are in seconds.  An empty forced driver counts as none. */
  datatype Settings = Settings(
    driverDir: string,
    receivedThrottle: real,
    completeThrottle: real,
    invalidMultiplier: real,
    reprobePeriod: real,
    reprobeSpread: real,
    priorities: map<string, seq<string>>,
    forced: map<Key, string>)

  /** What the cache holds for a test. */
  datatype TestState = TestState(
    recvd: Option<real>,
    started: Option<real>,
    complete: Option<real>,
    nextProbe: Option<real>,
    lastFailed: Option<real>,
    lastTimedOut: Option<real>,
    lastDriver: Option<string>,
    forceDriver: Option<string>)

  const INITIAL := TestState(None, None, None, None, None, None, None, None)

  /** A job without a device or a spec is invalid. */
  datatype Job = Job(device: Option<string>, spec: Option<string>, frequency: Option<real>)

  datatype Reason = InvalidJob | CannotBePolled | CompletedRecently | RequestedTooOften | UnknownSpec

  /** A request is refused, or sent on with one driver path, or with a list of paths to probe. */
  datatype Decision = Refused(why: Reason) | Run(driver: string) | Probe(drivers: seq<string>)

  predicate Accepted(d: Decision) {
    !d.Refused?
  }

  type Cache = map<Key, TestState>

  function Cached(cache: Cache, k: Key): TestState {
    if k in cache then cache[k] else INITIAL
  }

  // ---------- The rules of validate_task ----------

  /** The test has completed before, never with a driver that worked, and is not up for a probe yet. */
  predicate BackingOff(s: TestState, now: real) {
    s.complete.Some? && s.lastDriver.None? && s.nextProbe.Some? && s.nextProbe.value > now
  }

  predicate JustCompleted(cfg: Settings, s: TestState, now: real) {
    s.complete.Some? && now - s.complete.value < cfg.completeThrottle
  }

  predicate JustRequested(cfg: Settings, s: TestState, now: real) {
    s.recvd.Some? && now - s.recvd.value < cfg.receivedThrottle
  }

  /** It is time to schedule the next probe. */
  predicate ProbeDue(s: TestState, now: real) {
    s.nextProbe.None? || s.nextProbe.value < now
  }

  predicate Named(driver: Option<string>) {
    driver.Some? && driver.value != ""
  }

  function ForcedAfter(cfg: Settings, k: Key, s: TestState): Option<string> {
    if k in cfg.forced then Some(cfg.forced[k]) else s.forceDriver
  }

  predicate IsForced(cfg: Settings, k: Key, s: TestState) {
    k in cfg.forced || Named(s.forceDriver)
  }

  predicate Reprobes(cfg: Settings, k: Key, s: TestState, now: real) {
    (ProbeDue(s, now) || s.lastDriver.None?) && !IsForced(cfg, k, s)
  }

  /** The window in which the next probe falls when it is scheduled at `now`. */
  predicate ProbeWindow(cfg: Settings, now: real, at: real) {
    var d := cfg.reprobeSpread * cfg.reprobePeriod;
    now + (cfg.reprobePeriod - d) <= at <= now + (cfg.reprobePeriod + d)
  }

  function PathsFor(cfg: Settings, spec: string, drivers: seq<string>): (paths: seq<string>)
    ensures |paths| == |drivers|
    ensures forall i | 0 <= i < |drivers| :: paths[i] == GetPath(cfg.driverDir, spec, drivers[i])
  {
    seq(|drivers|, i requires 0 <= i < |drivers| => GetPath(cfg.driverDir, spec, drivers[i]))
  }

  /** The name Python puts into a path for "no driver". */
  const NO_DRIVER := "None"

  function Choice(cfg: Settings, k: Key, s: TestState): string {
    if Named(ForcedAfter(cfg, k, s)) then ForcedAfter(cfg, k, s).value
    else if s.lastDriver.Some? then s.lastDriver.value
    else NO_DRIVER
  }

  /** When a request is refused, and why. */
  ghost predicate Verdict(cfg: Settings, k: Key, s: TestState, now: real, d: Decision) {
    && (d == Refused(CannotBePolled) <==> BackingOff(s, now))
    && (d == Refused(CompletedRecently) <==> !BackingOff(s, now) && JustCompleted(cfg, s, now))
    && (d == Refused(RequestedTooOften) <==>
          !BackingOff(s, now) && !JustCompleted(cfg, s, now) && JustRequested(cfg, s, now))
    && (d == Refused(UnknownSpec) <==>
          && !BackingOff(s, now) && !JustCompleted(cfg, s, now) && !JustRequested(cfg, s, now)
          && Reprobes(cfg, k, s, now) && k.spec !in cfg.priorities)
    && d != Refused(InvalidJob)
    && (d.Probe? ==> Reprobes(cfg, k, s, now) && k.spec in cfg.priorities
                     && d.drivers == PathsFor(cfg, k.spec, cfg.priorities[k.spec]))
    && (d.Run? ==> !Reprobes(cfg, k, s, now) && d.driver == GetPath(cfg.driverDir, k.spec, Choice(cfg, k, s)))
  }

  /** The request has passed the three checks. */
  predicate Checked(d: Decision) {
    d !in {Refused(CannotBePolled), Refused(CompletedRecently), Refused(RequestedTooOften)}
  }

  /** A test that has been going on for longer than a multiple of its frequency, or a minute, counts as never
      started. */
  predicate Overdue(cfg: Settings, s: TestState, job: Job, now: real) {
    && s.started.Some?
    && now - s.started.value > if job.frequency.Some? then job.frequency.value * cfg.invalidMultiplier else 60.0
  }

  /** What the cache holds afterwards, also for a refused request. */
  ghost predicate Recorded(cfg: Settings, k: Key, s: TestState, now: real, d: Decision, next: TestState) {
    && next.recvd == (if d in {Refused(CompletedRecently), Refused(RequestedTooOften)} then s.recvd else Some(now))
    && (if ProbeDue(s, now) then next.nextProbe.Some? && ProbeWindow(cfg, now, next.nextProbe.value)
        else next.nextProbe == s.nextProbe)
    && next.forceDriver == ForcedAfter(cfg, k, s)
    && next.complete == s.complete && next.lastDriver == s.lastDriver
    && next.lastFailed == s.lastFailed && next.lastTimedOut == s.lastTimedOut
    && (next.started == s.started || next.started == None)
  }

  // ---------- The rules of process_log ----------

  datatype Kind = Received | Processing | Complete | Warning | Errored | Info

  datatype Message = NoSuitableDriver | TimedOut | SuccessWith(path: string) | Other(text: string)

  /** The driver that is remembered after a log message of one kind, line by line. */
  function Learned(cfg: Settings, spec: string, kind: Kind, lines: seq<Message>, known: Option<string>)
    : Option<string>
  {
    if lines == [] then known
    else
      var before := Learned(cfg, spec, kind, lines[..|lines| - 1], known);
      match lines[|lines| - 1]
      case NoSuitableDriver => if kind in {Complete, Warning, Errored} then None else before
      case SuccessWith(path) => if kind == Info then Some(StripPath(cfg.driverDir, spec, path)) else before
      case _ => before
  }

  /** The lines that are looked at: those of an information message up to the first that is no success. */
  function Heard(kind: Kind, lines: seq<Message>): seq<Message> {
    if kind != Info then lines
    else if lines == [] || !lines[0].SuccessWith? then []
    else [lines[0]] + Heard(kind, lines[1..])
  }

  lemma {:induction false} HeardUpTo(lines: seq<Message>, n: nat)
    requires n <= |lines| && (forall j :: 0 <= j < n ==> lines[j].SuccessWith?)
    requires n == |lines| || !lines[n].SuccessWith?
    ensures Heard(Info, lines) == lines[..n]
  {
    if n > 0 {
      HeardUpTo(lines[1..], n - 1);
      assert lines[..n] == [lines[0]] + lines[1..][..n - 1];
    }
  }

  lemma {:induction false} HeardAreLines(kind: Kind, lines: seq<Message>)
    ensures forall m <- Heard(kind, lines) :: m in lines
  {
    if kind == Info && lines != [] && lines[0].SuccessWith? {
      HeardAreLines(kind, lines[1..]);
    }
  }

  /** What a log message changes in the cache entry of its test. */
  ghost predicate Logged(cfg: Settings, k: Key, s: TestState, now: real, kind: Kind, lines: seq<Message>,
                         next: TestState)
  {
    && next.recvd == s.recvd && next.nextProbe == s.nextProbe && next.forceDriver == s.forceDriver
    && next.started == (match kind
                        case Processing => Some(now)
                        case Complete => None
                        case Errored => None
                        case _ => s.started)
    && next.complete == (if kind in {Complete, Errored} then Some(now) else s.complete)
    && next.lastDriver == Learned(cfg, k.spec, kind, Heard(kind, lines), s.lastDriver)
    && next.lastTimedOut ==
         (if kind in {Complete, Warning, Errored} && TimedOut in lines then Some(now) else s.lastTimedOut)
    && next.lastFailed ==
         (if (kind == Errored && lines != []) || (kind in {Complete, Warning} && NoSuitableDriver in lines)
          then Some(now) else s.lastFailed)
  }

  class Supervisor {
    const cfg: Settings
    var cache: Cache

    constructor (cfg: Settings)
      ensures this.cfg == cfg && cache == map[]
    {
      this.cfg, cache := cfg, map[];
    }

    /** validate_task: decides on a request that arrives at `now`.  State is committed for refused
        requests too. */
    method ValidateTask(job: Job, now: real) returns (d: Decision)
      requires 0.0 <= cfg.reprobeSpread && 0.0 <= cfg.reprobePeriod
      modifies this
      ensures job.device.None? || job.spec.None? ==> d == Refused(InvalidJob) && cache == old(cache)
      ensures job.device.Some? && job.spec.Some? ==>
                var k := Key(job.device.value, job.spec.value);
                && k in cache && cache == old(cache)[k := cache[k]]
                && Verdict(cfg, k, Cached(old(cache), k), now, d)
                && Recorded(cfg, k, Cached(old(cache), k), now, d, cache[k])
                && cache[k].started == (if Checked(d) && Overdue(cfg, Cached(old(cache), k), job, now) then None
                                        else Cached(old(cache), k).started)
    {
      if job.device.None? || job.spec.None? {
        return Refused(InvalidJob);
      }
      var k := Key(job.device.value, job.spec.value);
      var state := if k in cache then cache[k] else INITIAL;
      ghost var s := state;
      var refused, updateRecvd;
      refused, updateRecvd, state := CheckState(state, job, now);
      // done whether or not a check failed
      var reprobe;
      reprobe, state := Schedule(k, state, now, updateRecvd);
      cache := cache[k := state];

      if refused.Some? {
        return Refused(refused.value);
      }
      if state.lastDriver.None? {
        reprobe := true;
      }
      if k in cfg.forced || Named(state.forceDriver) {
        reprobe := false;
      }
      if reprobe {
        if k.spec in cfg.priorities {
          return Probe(PathsFor(cfg, k.spec, cfg.priorities[k.spec]));
        }
        return Refused(UnknownSpec);
      }
      var driver := if state.lastDriver.Some? then state.lastDriver.value else NO_DRIVER;
      if Named(state.forceDriver) {
        driver := state.forceDriver.value;
      }
      return Run(GetPath(cfg.driverDir, k.spec, driver));
    }

    /** The checks of validate_task; the first one that fails wins. */
    method CheckState(s: TestState, job: Job, now: real)
      returns (refused: Option<Reason>, updateRecvd: bool, state: TestState)
      ensures refused == Some(CannotBePolled) <==> BackingOff(s, now)
      ensures refused == Some(CompletedRecently) <==> !BackingOff(s, now) && JustCompleted(cfg, s, now)
      ensures refused == Some(RequestedTooOften) <==>
                !BackingOff(s, now) && !JustCompleted(cfg, s, now) && JustRequested(cfg, s, now)
      ensures refused in {None, Some(CannotBePolled), Some(CompletedRecently), Some(RequestedTooOften)}
      ensures updateRecvd <==> refused !in {Some(CompletedRecently), Some(RequestedTooOften)}
      ensures state == s.(started := if refused.None? && Overdue(cfg, s, job, now) then None else s.started)
    {
      refused, updateRecvd, state := None, true, s;
      if s.complete.Some? && s.lastDriver.None? && s.nextProbe.Some? && s.nextProbe.value > now {
        refused := Some(CannotBePolled);
      } else if s.complete.Some? && now - s.complete.value < cfg.completeThrottle {
        updateRecvd, refused := false, Some(CompletedRecently);
      } else if s.recvd.Some? && now - s.recvd.value < cfg.receivedThrottle {
        updateRecvd, refused := false, Some(RequestedTooOften);
      } else if s.started.Some? {
        var t := if job.frequency.Some? then job.frequency.value * cfg.invalidMultiplier else 60.0;
        if now - s.started.value > t {
          state := state.(started := None);
        }
      }
    }

    /** What validate_task does finally: the time of the request, the next probe, the forced driver. */
    method Schedule(k: Key, s: TestState, now: real, updateRecvd: bool) returns (due: bool, state: TestState)
      requires 0.0 <= cfg.reprobeSpread && 0.0 <= cfg.reprobePeriod
      ensures due <==> ProbeDue(s, now)
      ensures state == s.(recvd := if updateRecvd then Some(now) else s.recvd, nextProbe := state.nextProbe,
                          forceDriver := ForcedAfter(cfg, k, s))
      ensures if due then state.nextProbe.Some? && ProbeWindow(cfg, now, state.nextProbe.value)
              else state.nextProbe == s.nextProbe
    {
      due, state := false, s;
      if updateRecvd {
        state := state.(recvd := Some(now));
      }
      if state.nextProbe.None? || state.nextProbe.value < now {
        due := true;
        var spread := cfg.reprobeSpread * cfg.reprobePeriod;
        var shift: real :| -spread <= shift <= spread;
        state := state.(nextProbe := Some(now + (cfg.reprobePeriod + shift)));
      }
      if k in cfg.forced {
        state := state.(forceDriver := Some(cfg.forced[k]));
      }
    }

    /** process_log: what a log message of a worker changes.  A message for a test that is not in the cache is an
        error and changes nothing; so is the receipt of a job that has not started, for want of a time to tell; an
        information line that is no success is an error too, but what was learned before it stays. */
    method ProcessLog(k: Key, kind: Kind, lines: seq<Message>, now: real) returns (ok: bool)
      modifies this
      ensures ok <==>
                && k in old(cache) && Heard(kind, lines) == lines
                && !(kind == Received && old(cache)[k].recvd.Some? && old(cache)[k].started.None?)
      ensures k !in old(cache) ==> cache == old(cache)
      ensures k in old(cache) ==> k in cache && cache == old(cache)[k := cache[k]]
                                  && Logged(cfg, k, old(cache)[k], now, kind, lines, cache[k])
    {
      if k !in cache {
        return false;
      }
      ok := true;
      var state := cache[k];
      if kind == Received {
        ok := state.recvd.None? || state.started.Some?;
      } else if kind == Processing {
        state := state.(started := Some(now));
      } else if kind == Info {
        ok, state := NoteSuccess(k, lines, state);
      } else {
        if kind == Complete || kind == Errored {
          state := state.(started := None, complete := Some(now));
        }
        state := NoteTrouble(k, kind, lines, now, state);
      }
      NothingLearned(cfg, k.spec, kind, lines, state.lastDriver);
      cache := cache[k := state];
    }

    /** The lines of an information message: the driver of the last success is remembered. */
    method NoteSuccess(k: Key, lines: seq<Message>, s: TestState) returns (ok: bool, state: TestState)
      ensures ok <==> Heard(Info, lines) == lines
      ensures state == s.(lastDriver := Learned(cfg, k.spec, Info, Heard(Info, lines), s.lastDriver))
    {
      state := s;
      for i := 0 to |lines|
        invariant forall j :: 0 <= j < i ==> lines[j].SuccessWith?
        invariant state == s.(lastDriver := Learned(cfg, k.spec, Info, lines[..i], s.lastDriver))
      {
        if !lines[i].SuccessWith? {
          HeardUpTo(lines, i);
          assert |lines[..i]| < |lines|;
          return false, state;
        }
        assert lines[..i + 1][..i] == lines[..i];
        state := state.(lastDriver := Some(StripPath(cfg.driverDir, k.spec, lines[i].path)));
      }
      HeardUpTo(lines, |lines|);
      assert lines[..|lines|] == lines;
      return true, state;
    }

    /** The lines of a message about the end of a test. */
    method NoteTrouble(k: Key, kind: Kind, lines: seq<Message>, now: real, s: TestState) returns (state: TestState)
      requires kind in {Complete, Warning, Errored}
      ensures state == s.(lastDriver := Learned(cfg, k.spec, kind, lines, s.lastDriver),
                          lastTimedOut := if TimedOut in lines then Some(now) else s.lastTimedOut,
                          lastFailed := if (kind == Errored && lines != []) || NoSuitableDriver in lines
                                        then Some(now) else s.lastFailed)
    {
      state := s;
      for i := 0 to |lines|
        invariant state == s.(
          lastDriver := Learned(cfg, k.spec, kind, lines[..i], s.lastDriver),
          lastTimedOut := if TimedOut in lines[..i] then Some(now) else s.lastTimedOut,
          lastFailed := if (kind == Errored && i > 0) || NoSuitableDriver in lines[..i] then Some(now)
                        else s.lastFailed)
      {
        LearnedStep(cfg, k.spec, kind, lines, i, s.lastDriver);
        if lines[i] == NoSuitableDriver {
          state := state.(lastFailed := Some(now), lastDriver := None);
        } else if lines[i] == TimedOut {
          state := state.(lastTimedOut := Some(now));
        }
        if kind == Errored {
          state := state.(lastFailed := Some(now));
        }
      }
      assert lines[..|lines|] == lines;
    }
  }

  lemma LearnedStep(cfg: Settings, spec: string, kind: Kind, lines: seq<Message>, i: nat, known: Option<string>)
    requires i < |lines| && kind in {Complete, Warning, Errored}
    ensures Learned(cfg, spec, kind, lines[..i + 1], known)
            == if lines[i] == NoSuitableDriver then None else Learned(cfg, spec, kind, lines[..i], known)
    ensures forall m :: m in lines[..i + 1] <==> m in lines[..i] || m == lines[i]
  {
    assert lines[..i + 1][..i] == lines[..i];
    assert lines[..i + 1] == lines[..i] + [lines[i]];
  }

  lemma {:induction false} NothingLearned(cfg: Settings, spec: string, kind: Kind, lines: seq<Message>,
                                          known: Option<string>)
    ensures kind in {Received, Processing} ==> Learned(cfg, spec, kind, lines, known) == known
  {
    if lines != [] {
      NothingLearned(cfg, spec, kind, lines[..|lines| - 1], known);
    }
  }

  // ---------- The decision, told from the request alone ----------

  /** A request is sent on when none of the three checks refuses it, and the drivers to probe are known if it needs
      any. */
  lemma AcceptedExactlyWhen(cfg: Settings, k: Key, s: TestState, now: real, d: Decision)
    requires Verdict(cfg, k, s, now, d)
    ensures Accepted(d) <==>
              && (s.complete.None? || s.lastDriver.Some? || s.nextProbe.None? || s.nextProbe.value <= now)
              && (s.complete.None? || s.complete.value + cfg.completeThrottle <= now)
              && (s.recvd.None? || s.recvd.value + cfg.receivedThrottle <= now)
              && (k in cfg.forced || (s.forceDriver.Some? && s.forceDriver.value != "") || k.spec in cfg.priorities
                  || (s.lastDriver.Some? && s.nextProbe.Some? && now <= s.nextProbe.value))
  {
    if d.Refused? {
      assert d == Refused(d.why) && d.why != InvalidJob;
    }
  }

  /** A driver that is forced by name goes out even where another one is remembered. */
  lemma ForcedDriverWins(cfg: Settings, k: Key, s: TestState, now: real, d: Decision)
    requires Verdict(cfg, k, s, now, d) && Accepted(d)
    ensures k in cfg.forced && cfg.forced[k] != "" ==>
              d == Run(cfg.driverDir + k.spec + "/" + cfg.forced[k])
    ensures k !in cfg.forced && s.forceDriver.Some? && s.forceDriver.value != "" ==>
              d == Run(cfg.driverDir + k.spec + "/" + s.forceDriver.value)
    ensures k in cfg.forced && cfg.forced[k] == "" && s.lastDriver.Some? ==>
              d == Run(cfg.driverDir + k.spec + "/" + s.lastDriver.value)
    ensures k in cfg.forced && cfg.forced[k] == "" && s.lastDriver.None? ==>
              d == Run(cfg.driverDir + k.spec + "/" + "None")
  {
  }

  /** Where no driver is forced, the remembered one goes out until the next probe, and else the whole list does, in
      its order. */
  lemma UnforcedDrivers(cfg: Settings, k: Key, s: TestState, now: real, d: Decision)
    requires Verdict(cfg, k, s, now, d) && Accepted(d)
    requires k !in cfg.forced && (s.forceDriver.None? || s.forceDriver.value == "")
    ensures var probe := s.lastDriver.None? || s.nextProbe.None? || s.nextProbe.value < now;
            && (!probe ==> d == Run(cfg.driverDir + k.spec + "/" + s.lastDriver.value))
            && (probe ==> d.Probe? && k.spec in cfg.priorities && |d.drivers| == |cfg.priorities[k.spec]|
                          && forall i :: 0 <= i < |d.drivers| ==>
                               d.drivers[i] == cfg.driverDir + k.spec + "/" + cfg.priorities[k.spec][i])
  {
  }

  /** What is recorded of a request: its time unless it is throttled, and the next probe, in a period give or take the
      spread, if that was not set or has passed. */
  lemma RequestIsRecorded(cfg: Settings, k: Key, s: TestState, now: real, d: Decision, next: TestState)
    requires Verdict(cfg, k, s, now, d) && Recorded(cfg, k, s, now, d, next)
    ensures next.recvd == if d == Refused(CompletedRecently) || d == Refused(RequestedTooOften) then s.recvd
                          else Some(now)
    ensures s.nextProbe.Some? && now <= s.nextProbe.value ==> next.nextProbe == s.nextProbe
    ensures s.nextProbe.None? || s.nextProbe.value < now ==>
              && next.nextProbe.Some?
              && now + cfg.reprobePeriod - cfg.reprobeSpread * cfg.reprobePeriod <= next.nextProbe.value
              && next.nextProbe.value <= now + cfg.reprobePeriod + cfg.reprobeSpread * cfg.reprobePeriod
    ensures next.forceDriver == if k in cfg.forced then Some(cfg.forced[k]) else s.forceDriver
    ensures next.complete == s.complete && next.lastDriver == s.lastDriver
  {
  }

  // ---------- What a log message leaves, told from its lines ----------

  lemma {:induction false} LearnedFromTrouble(cfg: Settings, spec: string, kind: Kind, lines: seq<Message>,
                                              known: Option<string>)
    requires kind in {Complete, Warning, Errored}
    ensures Learned(cfg, spec, kind, lines, known) == if NoSuitableDriver in lines then None else known
  {
    if lines != [] {
      LearnedFromTrouble(cfg, spec, kind, lines[..|lines| - 1], known);
      LearnedStep(cfg, spec, kind, lines, |lines| - 1, known);
      assert lines[..|lines|] == lines;
    }
  }

  /** The end of a test and the troubles on the way: an error is always a failure, a warning ends nothing. */
  lemma TroubleIsNoted(cfg: Settings, k: Key, s: TestState, now: real, kind: Kind, lines: seq<Message>, next: TestState)
    requires Logged(cfg, k, s, now, kind, lines, next) && kind in {Complete, Warning, Errored}
    ensures kind == Warning ==> next.started == s.started && next.complete == s.complete
    ensures kind != Warning ==> next.started == None && next.complete == Some(now)
    ensures next.lastDriver == if NoSuitableDriver in lines then None else s.lastDriver
    ensures next.lastTimedOut == if TimedOut in lines then Some(now) else s.lastTimedOut
    ensures next.lastFailed == if NoSuitableDriver in lines || (kind == Errored && lines != []) then Some(now)
                               else s.lastFailed
    ensures next.recvd == s.recvd && next.nextProbe == s.nextProbe && next.forceDriver == s.forceDriver
  {
    LearnedFromTrouble(cfg, k.spec, kind, lines, s.lastDriver);
  }

  /** The other messages: a test that starts is noted, and of the successes reported the last counts. */
  lemma ProgressIsNoted(cfg: Settings, k: Key, s: TestState, now: real, kind: Kind, lines: seq<Message>,
                        next: TestState)
    requires Logged(cfg, k, s, now, kind, lines, next) && kind in {Received, Processing, Info}
    ensures next == s.(started := if kind == Processing then Some(now) else s.started, lastDriver := next.lastDriver)
    ensures kind != Info || lines == [] || !lines[0].SuccessWith? ==> next.lastDriver == s.lastDriver
    ensures kind == Info && lines != [] && (forall m <- lines :: m.SuccessWith?) ==>
              next.lastDriver == Some(StripPath(cfg.driverDir, k.spec, lines[|lines| - 1].path))
  {
    NothingLearned(cfg, k.spec, kind, Heard(kind, lines), s.lastDriver);
    if kind == Info && forall m <- lines :: m.SuccessWith? {
      HeardUpTo(lines, |lines|);
      assert lines[..|lines|] == lines;
    }
  }
}
