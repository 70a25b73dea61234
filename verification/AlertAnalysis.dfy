/**
 Deciding when to send an alert (lib/ptolemy/analyse/generic.py:119-231) and what kind of alert it is
 (etc/ptolemy/alert.yaml:79-101; lib/ptolemy/alert/commands.py:114-128).  For every context that a directive
 watches, a redis key holds the last state and value; the comparison itself is any test.
 */
module AlertAnalysis {
  import opened Basics
  import opened Feeder

  /** The value of a watched key: nothing is known at first. */
  datatype Last = Last(state: Option<bool>, value: Option<string>)

  type Redis = map<Doc, Last>

  /** What process_when hands on. */
  datatype Change = Change(value: string, lastValue: Option<string>, state: bool, lastState: Option<bool>)

  /** The `what` part of a directive watches the contexts whose field matches; the `when` part compares a
      field, and the comparison may raise, as float() does on a text. */
  datatype Directive = Directive(name: string, what: string, matches: string -> bool, when: string,
                                 test: string -> Option<bool>)

  predicate IsTrue(state: Option<bool>) {
    state.Some? && state.value
  }

  // ---------- process_what ----------

  /** The key of the context after process_what, if the message is of any concern to it. */
  function Watched(d: Directive, redis: Redis, context: Doc, data: Doc): Redis {
    var merged := data + context;
    if d.what !in merged then redis
    else if merged[d.what] != "" && d.matches(merged[d.what]) then
      if context in redis then redis else redis[context := Last(None, None)]
    else redis - {context}
  }

  // ---------- process_when ----------

  /** The new state, if the context is watched and its value can be compared. */
  function Compared(d: Directive, redis: Redis, context: Doc, data: Doc): Option<bool> {
    if context in redis && d.when in data then d.test(data[d.when]) else None
  }

  /** An alert is sent while the condition holds, and once when it ceases to hold. */
  predicate Alerting(c: Change) {
    c.state || (c.lastState.Some? && c.lastState.value != c.state)
  }

  class AnalyseWorker {
    const directive: Directive
    var redis: Redis

    constructor (directive: Directive)
      ensures this.directive == directive && redis == map[]
    {
      this.directive, redis := directive, map[];
    }

    method ProcessWhat(context: Doc, data: Doc)
      modifies this
      ensures redis == Watched(directive, old(redis), context, data)
      ensures forall log {:trigger Step(directive, World(old(redis), log), What(context, data))} ::
                Step(directive, World(old(redis), log), What(context, data)) ==
                World(redis,
                      if context !in redis && directive.what in data + context then log + [Reset(context)] else log)
    {
      var merged := data + context;
      if directive.what !in merged {
        return;
      }
      if merged[directive.what] != "" && directive.matches(merged[directive.what]) {
        if context !in redis {
          redis := redis[context := Last(None, None)];
        }
      } else {
        redis := redis - {context};
      }
    }

    /** process_when: the change to tell about, if any */
    method ProcessWhen(context: Doc, data: Doc) returns (r: Option<Change>)
      modifies this
      ensures var state := Compared(directive, old(redis), context, data);
              if state.None? then r == None && redis == old(redis)
              else
                var value := data[directive.when];
                var change := Change(value, old(redis)[context].value, state.value, old(redis)[context].state);
                redis == old(redis)[context := Last(state, Some(value))]
                && r == if Alerting(change) then Some(change) else None
      ensures forall log, time {:trigger Step(directive, World(old(redis), log), When(context, data, time))} ::
                Step(directive, World(old(redis), log), When(context, data, time)) ==
                World(redis, if r.Some? then log + [Alert(context, time, r.value)] else log)
    {
      var lastState, lastValue := None, None;
      if context in redis {
        lastState, lastValue := redis[context].state, redis[context].value;
      }
      if context in redis {
        if directive.when !in data {
          return None;
        }
        var value := data[directive.when];
        var tested := directive.test(value);
        if tested.None? {
          return None;
        }
        var state := tested.value;
        redis := redis[context := Last(Some(state), Some(value))];
        if state || (lastState.Some? && lastState.value != state) {
          return Some(Change(value, lastValue, state, lastState));
        }
      }
      return None;
    }

    /** A key that was not refreshed for long enough is dropped by redis. */
    method Expire(context: Doc)
      modifies this
      ensures redis == old(redis) - {context}
      ensures forall log {:trigger Step(directive, World(old(redis), log), Expired(context))} ::
                Step(directive, World(old(redis), log), Expired(context)) == World(redis, log + [Reset(context)])
    {
      redis := redis - {context};
    }
  }

  // ---------- The three kinds of alerts ----------

  datatype Kind = New | Continual | End

  /** The conditions in use: the state or the last state is, or is not, True. */
  datatype Condition = StateIs(b: bool) | LastIsTrue | LastIsNotTrue

  predicate Holds(c: Condition, change: Change) {
    match c
    case StateIs(b) => change.state == b
    case LastIsTrue => IsTrue(change.lastState)
    case LastIsNotTrue => !IsTrue(change.lastState)
  }

  function ConditionsOf(k: Kind): seq<Condition> {
    match k
    case New => [StateIs(true), LastIsNotTrue]
    case Continual => [StateIs(true), LastIsTrue]
    case End => [StateIs(false), LastIsTrue]
  }

  /** match_condition */
  method MatchCondition(conditions: seq<Condition>, change: Change) returns (r: bool)
    ensures r <==> forall c <- conditions :: Holds(c, change)
  {
    for i := 0 to |conditions|
      invariant forall j :: 0 <= j < i ==> Holds(conditions[j], change)
    {
      if !Holds(conditions[i], change) {
        return false;
      }
    }
    return true;
  }

  ghost predicate IsKind(k: Kind, change: Change) {
    forall c <- ConditionsOf(k) :: Holds(c, change)
  }

  /** Which of the three an alert is. */
  function KindOf(change: Change): Kind {
    if !change.state then End else if IsTrue(change.lastState) then Continual else New
  }

  lemma ConditionsSpelledOut(k: Kind, change: Change)
    ensures IsKind(k, change) <==>
              (change.state <==> k != End) && (IsTrue(change.lastState) <==> k != New)
  {
    var conditions := ConditionsOf(k);
    assert |conditions| == 2 && forall c <- conditions :: c == conditions[0] || c == conditions[1];
    assert IsKind(k, change) <==> Holds(conditions[0], change) && Holds(conditions[1], change);
  }

  /** Everything that is sent is a new, a continual or an end alert, and only one of them. */
  lemma ExactlyOneKind(change: Change, k: Kind)
    requires Alerting(change)
    ensures IsKind(k, change) <==> k == KindOf(change)
  {
    ConditionsSpelledOut(k, change);
  }

  // ---------- Whole runs ----------

  datatype Event = What(context: Doc, data: Doc) | When(context: Doc, data: Doc, time: int) | Expired(context: Doc)

  /** What happened to a context: an alert was sent, or its key was dropped. */
  datatype Entry = Alert(context: Doc, time: int, change: Change) | Reset(context: Doc)

  datatype World = World(redis: Redis, log: seq<Entry>)

  /** One event, with what the worker's methods do. */
  function Step(d: Directive, w: World, e: Event): World {
    match e
    case What(context, data) =>
      var redis := Watched(d, w.redis, context, data);
      World(redis, if context !in redis && d.what in data + context then w.log + [Reset(context)] else w.log)
    case Expired(context) => World(w.redis - {context}, w.log + [Reset(context)])
    case When(context, data, time) =>
      var state := Compared(d, w.redis, context, data);
      if state.None? then w
      else
        var change := Change(data[d.when], w.redis[context].value, state.value, w.redis[context].state);
        World(w.redis[context := Last(state, Some(data[d.when]))],
              if Alerting(change) then w.log + [Alert(context, time, change)] else w.log)
  }

  function Run(d: Directive, events: seq<Event>, n: nat): World
    requires n <= |events|
  {
    if n == 0 then World(map[], []) else Step(d, Run(d, events, n - 1), events[n - 1])
  }

  /** The last of the first `n` entries about a context. */
  function Previous(log: seq<Entry>, n: nat, c: Doc): Option<Entry>
    requires n <= |log|
  {
    if n == 0 then None
    else if log[n - 1].context == c then Some(log[n - 1])
    else Previous(log, n - 1, c)
  }

  /** An alert is going on: the last entry is a new or continual alert. */
  predicate GoingOn(e: Option<Entry>) {
    e.Some? && e.value.Alert? && KindOf(e.value.change) != End
  }

  /** The alerts of every context spell out (new continual* end)*, broken off only where the key is dropped:
      a new alert comes where none is going on, and any other where one is. */
  ghost predicate WellSpelled(log: seq<Entry>) {
    forall n :: 0 <= n < |log| && log[n].Alert? ==>
                  (GoingOn(Previous(log, n, log[n].context)) <==> KindOf(log[n].change) != New)
  }

  lemma {:induction false} PreviousIgnoresLater(log: seq<Entry>, e: Entry, n: nat, c: Doc)
    requires n <= |log|
    ensures Previous(log + [e], n, c) == Previous(log, n, c)
  {
    if n > 0 {
      PreviousIgnoresLater(log, e, n - 1, c);
    }
  }

  lemma SpellsOn(log: seq<Entry>, e: Entry)
    requires WellSpelled(log)
    requires e.Alert? ==> (GoingOn(Previous(log, |log|, e.context)) <==> KindOf(e.change) != New)
    ensures WellSpelled(log + [e])
  {
    forall n | 0 <= n < |log + [e]| && (log + [e])[n].Alert?
      ensures GoingOn(Previous(log + [e], n, (log + [e])[n].context)) <==> KindOf((log + [e])[n].change) != New
    {
      PreviousIgnoresLater(log, e, n, (log + [e])[n].context);
    }
  }

  lemma PreviousAfter(log: seq<Entry>, e: Entry, c: Doc)
    ensures Previous(log + [e], |log + [e]|, c) == if e.context == c then Some(e) else Previous(log, |log|, c)
  {
    PreviousIgnoresLater(log, e, |log|, c);
  }

  /** The redis key knows whether an alert is going on. */
  ghost predicate KeysKnow(w: World) {
    forall c {:trigger Previous(w.log, |w.log|, c)} ::
      GoingOn(Previous(w.log, |w.log|, c)) <==> c in w.redis && IsTrue(w.redis[c].state)
  }

  lemma LoggedSpells(w: World, redis: Redis, e: Entry)
    requires WellSpelled(w.log) && KeysKnow(w)
    requires redis - {e.context} == w.redis - {e.context}
    requires e.Reset? ==> e.context !in redis
    requires e.Alert? ==>
               && Alerting(e.change) && e.context in w.redis && w.redis[e.context].state == e.change.lastState
               && e.context in redis && redis[e.context].state == Some(e.change.state)
    ensures WellSpelled(w.log + [e]) && KeysKnow(World(redis, w.log + [e]))
  {
    assert e.Alert? ==> (GoingOn(Previous(w.log, |w.log|, e.context)) <==> KindOf(e.change) != New);
    SpellsOn(w.log, e);
    forall c: Doc ensures GoingOn(Previous(w.log + [e], |w.log + [e]|, c)) <==> c in redis && IsTrue(redis[c].state) {
      PreviousAfter(w.log, e, c);
      if c == e.context {
        if e.Alert? {
          assert IsTrue(redis[e.context].state) <==> e.change.state;
        }
      } else {
        assert c in redis <==> c in redis - {e.context};
        assert c in w.redis <==> c in w.redis - {e.context};
        assert c in redis ==> redis[c] == (redis - {e.context})[c];
        assert c in w.redis ==> w.redis[c] == (w.redis - {e.context})[c];
      }
    }
  }

  lemma StepSpells(d: Directive, w: World, e: Event)
    requires WellSpelled(w.log) && KeysKnow(w)
    ensures WellSpelled(Step(d, w, e).log) && KeysKnow(Step(d, w, e))
  {
    match e {
      case What(context, data) =>
        var redis := Watched(d, w.redis, context, data);
        if context !in redis && d.what in data + context {
          LoggedSpells(w, redis, Reset(context));
        } else {
          assert Step(d, w, e) == World(redis, w.log);
        }
      case Expired(context) =>
        LoggedSpells(w, w.redis - {context}, Reset(context));
      case When(context, data, time) =>
        var state := Compared(d, w.redis, context, data);
        if state.Some? {
          var change := Change(data[d.when], w.redis[context].value, state.value, w.redis[context].state);
          var redis := w.redis[context := Last(state, Some(data[d.when]))];
          if Alerting(change) {
            LoggedSpells(w, redis, Alert(context, time, change));
          } else {
            assert Step(d, w, e) == World(redis, w.log);
          }
        }
    }
  }

  /** Over any run, the alerts of every context are well spelled. */
  lemma {:induction false} RunSpells(d: Directive, events: seq<Event>, n: nat)
    requires n <= |events|
    ensures WellSpelled(Run(d, events, n).log) && KeysKnow(Run(d, events, n))
  {
    if n > 0 {
      RunSpells(d, events, n - 1);
      StepSpells(d, Run(d, events, n - 1), events[n - 1]);
    }
  }

  /** Only alerts that must be sent are sent. */
  lemma {:induction false} RunAlerts(d: Directive, events: seq<Event>, n: nat, i: nat)
    requires n <= |events| && i < |Run(d, events, n).log| && Run(d, events, n).log[i].Alert?
    ensures Alerting(Run(d, events, n).log[i].change)
  {
    if n > 0 && i < |Run(d, events, n - 1).log| {
      RunAlerts(d, events, n - 1, i);
    }
  }

  // ---------- Runs, told from their events ----------

  /** The field that decides whether a context is watched has this value; what the context says goes before the data. */
  predicate Says(d: Directive, context: Doc, data: Doc, v: string) {
    if d.what in context then context[d.what] == v else d.what in data && data[d.what] == v
  }

  /** The event makes the context watched: its field has a value, and that matches. */
  ghost predicate StartsWatch(d: Directive, e: Event, c: Doc) {
    e.What? && e.context == c && exists v :: Says(d, c, e.data, v) && v != "" && d.matches(v)
  }

  /** The event ends that: its field is empty or does not match any more, or the key expires. */
  ghost predicate StopsWatch(d: Directive, e: Event, c: Doc) {
    || (e.What? && e.context == c && exists v :: Says(d, c, e.data, v) && (v == "" || !d.matches(v)))
    || e == Expired(c)
  }

  /** The context has been watched since event `i`. */
  ghost predicate WatchedSince(d: Directive, events: seq<Event>, n: nat, c: Doc, i: int)
    requires n <= |events|
  {
    && 0 <= i < n && StartsWatch(d, events[i], c)
    && forall j {:trigger events[j]} :: i < j < n ==> !StopsWatch(d, events[j], c)
  }

  lemma StepWatches(d: Directive, w: World, e: Event, c: Doc)
    ensures StartsWatch(d, e, c) ==>
              c in Step(d, w, e).redis
              && Step(d, w, e).redis[c] == if c in w.redis then w.redis[c] else Last(None, None)
    ensures StopsWatch(d, e, c) ==> c !in Step(d, w, e).redis
    ensures !StartsWatch(d, e, c) && !StopsWatch(d, e, c) ==> (c in Step(d, w, e).redis <==> c in w.redis)
    ensures !StartsWatch(d, e, c) && !StopsWatch(d, e, c) && !(e.When? && e.context == c) && c in w.redis ==>
              Step(d, w, e).redis[c] == w.redis[c]
  {
    if e.What? && e.context == c {
      var merged := e.data + c;
      if d.what in merged {
        assert Says(d, c, e.data, merged[d.what]);
      }
      assert forall v :: Says(d, c, e.data, v) ==> d.what in merged && v == merged[d.what];
    }
  }

  /** Over any run a context is watched exactly when some message had a value for it that matches, and since then none
      had one that does not, and its key did not expire. */
  lemma {:induction false} WatchedExactlyWhen(d: Directive, events: seq<Event>, n: nat, c: Doc)
    requires n <= |events|
    ensures c in Run(d, events, n).redis <==> exists i :: WatchedSince(d, events, n, c, i)
  {
    if n > 0 {
      var m := n - 1;
      WatchedExactlyWhen(d, events, m, c);
      StepWatches(d, Run(d, events, m), events[m], c);
      if i :| WatchedSince(d, events, m, c, i) && !StopsWatch(d, events[m], c) {
        assert WatchedSince(d, events, n, c, i);
      }
      if StartsWatch(d, events[m], c) {
        assert WatchedSince(d, events, n, c, m);
      }
      if i :| WatchedSince(d, events, n, c, i) && i < m {
        assert WatchedSince(d, events, m, c, i);
      }
    }
  }

  /** A message that matches leaves what is known of a watched context as it was, and nothing is known of another. */
  lemma MatchKeepsWhatIsKnown(d: Directive, events: seq<Event>, i: nat, c: Doc)
    requires i < |events| && StartsWatch(d, events[i], c)
    ensures c in Run(d, events, i + 1).redis
    ensures Run(d, events, i + 1).redis[c]
         == if c in Run(d, events, i).redis then Run(d, events, i).redis[c] else Last(None, None)
  {
    StepWatches(d, Run(d, events, i), events[i], c);
  }

  /** From a message that does not match on, the context is not watched and no alert about it is sent, until a message
      that matches. */
  lemma {:induction false} NoAlertUntilMatch(d: Directive, events: seq<Event>, i: nat, n: nat, c: Doc)
    requires i < n <= |events| && StopsWatch(d, events[i], c)
    requires forall j {:trigger events[j]} :: i < j < n ==> !StartsWatch(d, events[j], c)
    ensures c !in Run(d, events, n).redis
    ensures var before, log := Run(d, events, i).log, Run(d, events, n).log;
            |before| <= |log| && forall k :: |before| <= k < |log| && log[k].Alert? ==> log[k].context != c
    decreases n
  {
    StepWatches(d, Run(d, events, n - 1), events[n - 1], c);
    if i < n - 1 {
      NoAlertUntilMatch(d, events, i, n - 1, c);
    }
  }

  /** An alert is sent exactly when a watched context has a value that can be compared, and the condition holds or has
      just ceased to hold; it tells the value and the state, and those before. */
  lemma AlertSentExactlyWhen(d: Directive, events: seq<Event>, i: nat, c: Doc, data: Doc, time: int, s: bool)
    requires i < |events| && events[i] == When(c, data, time)
    requires c in Run(d, events, i).redis && d.when in data && d.test(data[d.when]) == Some(s)
    ensures var last, log := Run(d, events, i).redis[c], Run(d, events, i).log;
            && Run(d, events, i + 1).redis == Run(d, events, i).redis[c := Last(Some(s), Some(data[d.when]))]
            && Run(d, events, i + 1).log ==
               if s || last.state == Some(true)
               then log + [Alert(c, time, Change(data[d.when], last.value, s, last.state))] else log
  {
  }

  /** Nothing else sends one. */
  lemma NothingElseAlerts(d: Directive, events: seq<Event>, i: nat)
    requires i < |events|
    requires events[i].When? ==>
               || events[i].context !in Run(d, events, i).redis || d.when !in events[i].data
               || d.test(events[i].data[d.when]) == None
    ensures var log := Run(d, events, i + 1).log;
            Run(d, events, i).log <= log && forall k :: |Run(d, events, i).log| <= k < |log| ==> log[k].Reset?
    ensures events[i].When? ==> Run(d, events, i + 1) == Run(d, events, i)
  {
  }

  /** A port that is no uplink any more is not watched: nothing is told when it goes down. */
  lemma SpareTellsNothing(d: Directive, port: Doc, events: seq<Event>)
    requires d == Directive("uplinks", "alias", v => v == "uplink", "state", v => Some(v == "down"))
    requires port == map["port" := "1"]
    requires events == [What(port, map["alias" := "uplink"]), What(port, map["alias" := "spare"]),
                        When(port, map["state" := "down"], 5)]
    ensures Run(d, events, 3).redis == map[] && Run(d, events, 3).log == [Reset(port)]
  {
    var empty := Last(None, None);
    assert Run(d, events, 1) == World(map[port := empty], []);
    assert Run(d, events, 2) == World(map[], [Reset(port)]);
  }

  /** An uplink that goes down, stays down, comes up and stays up: a new, a continual and an end alert, and no more. */
  lemma UplinkSpells(d: Directive, port: Doc, events: seq<Event>)
    requires d == Directive("uplinks", "alias", v => v == "uplink", "state", v => Some(v == "down"))
    requires port == map["port" := "1"]
    requires events == [What(port, map["alias" := "uplink"]), When(port, map["state" := "down"], 1),
                        When(port, map["state" := "down"], 2), When(port, map["state" := "up"], 3),
                        When(port, map["state" := "up"], 4)]
    ensures Run(d, events, 5).log == [Alert(port, 1, Change("down", None, true, None)),
                                      Alert(port, 2, Change("down", Some("down"), true, Some(true))),
                                      Alert(port, 3, Change("up", Some("down"), false, Some(true)))]
    ensures KindOf(Change("down", None, true, None)) == New
    ensures KindOf(Change("down", Some("down"), true, Some(true))) == Continual
    ensures KindOf(Change("up", Some("down"), false, Some(true))) == End
  {
    assert Run(d, events, 1) == World(map[port := Last(None, None)], []);
    assert Run(d, events, 2).redis == map[port := Last(Some(true), Some("down"))];
    assert Run(d, events, 3).redis == map[port := Last(Some(true), Some("down"))];
    assert Run(d, events, 4).redis == map[port := Last(Some(false), Some("up"))];
  }
}
