/**
 From alerts to rows (lib/ptolemy/alert/commands.py:172-230; etc/ptolemy/alert.yaml:79-101): a new alert
 inserts a row, continual and end alerts update the most recent row of their context, so that the alert table
 has one row for every episode.
 */
module AlertEpisodes {
  import opened Basics
  import opened Feeder
  import opened PostgresRows
  import opened PostgresCache
  import opened PostgresStorer
  import opened AlertAnalysis

  // ---------- Storing an alert ----------

  /** metric.replace('.', '_') */
  function Underscored(metric: string): (r: string)
    ensures |r| == |metric| && forall i :: 0 <= i < |r| ==> r[i] == if metric[i] == '.' then '_' else metric[i]
  {
    seq(|metric|, i requires 0 <= i < |metric| => if metric[i] == '.' then '_' else metric[i])
  }

  function StateText(state: Option<bool>): string {
    if state.None? then "None" else if state.value then "True" else "False"
  }

  /** The data of an alert as they are stored, with the text of the directive. */
  function ChangeDoc(change: Change, condition: string): Doc {
    map["value" := change.value,
        "last_value" := if change.lastValue.Some? then change.lastValue.value else "None",
        "state" := StateText(Some(change.state)),
        "last_state" := StateText(change.lastState),
        "condition" := condition]
  }

  /** The options a stanza gives to `store`: a new alert is just inserted, the others update the most recent
      row and leave its creation time. */
  function MetaOf(kind: Kind, metric: string): Meta {
    Meta("alert", Underscored(metric), [], None, kind == New, kind != New, kind != New)
  }

  /** The message that must go to the storage for an alert. */
  function MessageOf(metric: string, condition: string, context: Doc, time: int, change: Change): Message {
    Message(MetaOf(KindOf(change), metric), context, map[], [ChangeDoc(change, condition)], time)
  }

  /** store: the metric moves from the context to the group */
  method MakeMessage(kind: Kind, context: Doc, change: Change, condition: string, now: int) returns (m: Message)
    requires "metric" in context
    ensures m == Message(MetaOf(kind, context["metric"]), context - {"metric"}, map[],
                         [ChangeDoc(change, condition)], now)
  {
    var meta := MetaOf(kind, context["metric"]);
    var rest := context - {"metric"};
    m := Message(meta, rest, map[], [ChangeDoc(change, condition)], now);
  }

  /** process_task of the alert daemon, for the three stanzas of one metric: exactly one message is stored, the
      one for the kind of the alert. */
  method ProcessTask(metric: string, condition: string, context: Doc, change: Change, now: int)
    returns (out: seq<Message>)
    requires Alerting(change) && "metric" !in context
    ensures out == [MessageOf(metric, condition, context, now, change)]
  {
    out := [];
    var stanzas := [New, Continual, End];
    var sent := context["metric" := metric];
    assert sent - {"metric"} == context;
    for i := 0 to |stanzas|
      invariant out == if exists j :: 0 <= j < i && stanzas[j] == KindOf(change)
                       then [MessageOf(metric, condition, context, now, change)] else []
    {
      var matched := MatchCondition(ConditionsOf(stanzas[i]), change);
      ExactlyOneKind(change, stanzas[i]);
      if matched {
        var m := MakeMessage(stanzas[i], sent, change, condition, now);
        out := out + [m];
      }
    }
    assert stanzas[0] == New && stanzas[1] == Continual && stanzas[2] == End;
  }

  // ---------- Episodes ----------

  predicate IsNewOf(e: Entry, c: Doc) {
    e.Alert? && e.context == c && KindOf(e.change) == New
  }

  /** Where the latest episode of a context began. */
  function LastNew(log: seq<Entry>, n: nat, c: Doc): Option<nat>
    requires n <= |log|
  {
    if n == 0 then None
    else if IsNewOf(log[n - 1], c) then Some(n - 1)
    else LastNew(log, n - 1, c)
  }

  /** The alert at `r` belongs to the episode that began at `p`. */
  predicate Belongs(log: seq<Entry>, r: nat, p: nat)
    requires r < |log|
  {
    log[r].Alert? && LastNew(log, r + 1, log[r].context) == Some(p)
  }

  /** The latest alert of an episode. */
  ghost predicate LatestAlert(log: seq<Entry>, n: nat, p: nat, q: nat)
    requires n <= |log|
  {
    q < n && Belongs(log, q, p) && forall r :: q < r < n ==> !Belongs(log, r, p)
  }

  /** Where the episodes began, in order. */
  function Starts(log: seq<Entry>, n: nat): seq<nat>
    requires n <= |log|
  {
    if n == 0 then []
    else if IsNewOf(log[n - 1], log[n - 1].context) then Starts(log, n - 1) + [n - 1]
    else Starts(log, n - 1)
  }

  /** The row of an episode: created at its new alert, updated at its latest alert, with the data of that. */
  ghost predicate EpisodeRow(log: seq<Entry>, n: nat, condition: string, p: nat, row: Row)
    requires n <= |log|
  {
    && p < n && log[p].Alert? && row.context == log[p].context && row.created == log[p].time
    && exists q: nat :: LatestAlert(log, n, p, q) && row.updated == log[q].time
                        && row.data == ChangeDoc(log[q].change, condition)
  }

  /** The table holds one row for every episode, in the order in which they began, and nothing else. */
  ghost predicate HoldsEpisodes(log: seq<Entry>, n: nat, condition: string, t: Table, next: nat)
    requires n <= |log|
  {
    && next == |Starts(log, n)|
    && (forall id: nat :: id in t <==> id < next)
    && (forall id: nat {:trigger RowAt(log, n, condition, t, id)} :: id < next ==> RowAt(log, n, condition, t, id))
  }

  ghost predicate RowAt(log: seq<Entry>, n: nat, condition: string, t: Table, id: nat)
    requires n <= |log| && id < |Starts(log, n)| && id in t
  {
    EpisodeRow(log, n, condition, Starts(log, n)[id], t[id])
  }

  lemma {:induction false} StartsAreNew(log: seq<Entry>, n: nat)
    requires n <= |log|
    ensures forall i :: 0 <= i < |Starts(log, n)| ==>
              var p := Starts(log, n)[i]; p < n && IsNewOf(log[p], log[p].context)
    ensures forall i, j :: 0 <= i < j < |Starts(log, n)| ==> Starts(log, n)[i] < Starts(log, n)[j]
    ensures forall p :: 0 <= p < n && IsNewOf(log[p], log[p].context) ==> p in Starts(log, n)
  {
    if n > 0 {
      StartsAreNew(log, n - 1);
    }
  }

  lemma StartsInOrder(log: seq<Entry>, n: nat, i: nat, j: nat)
    requires n <= |log| && i < |Starts(log, n)| && j < |Starts(log, n)|
    ensures i < j ==> Starts(log, n)[i] < Starts(log, n)[j]
  {
    StartsAreNew(log, n);
  }

  lemma {:induction false} LastNewIsLast(log: seq<Entry>, n: nat, c: Doc)
    requires n <= |log|
    ensures LastNew(log, n, c).Some? ==> LastNew(log, n, c).value < n && IsNewOf(log[LastNew(log, n, c).value], c)
    ensures forall p :: 0 <= p < n && IsNewOf(log[p], c) ==> LastNew(log, n, c).Some? && p <= LastNew(log, n, c).value
  {
    if n > 0 {
      LastNewIsLast(log, n - 1, c);
    }
  }

  /** While an alert is going on there is an episode it belongs to. */
  lemma {:induction false} GoingOnHasStart(log: seq<Entry>, n: nat, c: Doc)
    requires n <= |log| && WellSpelled(log) && GoingOn(Previous(log, n, c))
    ensures LastNew(log, n, c).Some?
  {
    if log[n - 1].context == c {
      if KindOf(log[n - 1].change) != New {
        GoingOnHasStart(log, n - 1, c);
      }
    } else {
      GoingOnHasStart(log, n - 1, c);
    }
  }

  // ---------- The table over a whole run ----------

  const DATA_FIELDS: set<string> := {"value", "last_value", "state", "last_state", "condition"}

  /** A context says something, and none of its keys is a field of the data. */
  predicate PlainContext(c: Doc) {
    c != map[] && c.Keys !! DATA_FIELDS
  }

  ghost predicate PlainContexts(log: seq<Entry>) {
    forall n :: 0 <= n < |log| ==> PlainContext(log[n].context)
  }

  ghost predicate TimesIncrease(log: seq<Entry>) {
    forall i, j :: 0 <= i < j < |log| && log[i].Alert? && log[j].Alert? ==> log[i].time < log[j].time
  }

  /** The messages for the alerts are stored one after the other, from an empty table on. */
  ghost predicate Delivered(metric: string, condition: string, log: seq<Entry>, ts: seq<Table>, nexts: seq<nat>) {
    && |ts| == |log| + 1 && |nexts| == |log| + 1 && ts[0] == map[] && nexts[0] == 0
    && forall n :: 0 <= n < |log| ==> StoredEntry(metric, condition, log[n], ts[n], nexts[n], ts[n + 1], nexts[n + 1])
  }

  ghost predicate StoredEntry(metric: string, condition: string, e: Entry, t: Table, next: nat, t2: Table, next2: nat) {
    if e.Reset? then t2 == t && next2 == next
    else
      var msg := MessageOf(metric, condition, e.context, e.time, e.change);
      WellFormed(msg.meta) && Stored(msg, t, next, t2, next2)
  }

  /** What storing one alert does. */
  lemma StoredAlert(metric: string, condition: string, e: Entry, t: Table, next: nat, t2: Table, next2: nat)
    requires e.Alert? && PlainContext(e.context) && '@' !in metric
    requires StoredEntry(metric, condition, e, t, next, t2, next2)
    ensures var d := ChangeDoc(e.change, condition);
            if KindOf(e.change) == New then t2 == t[next := Row(e.time, e.time, e.context, d)] && next2 == next + 1
            else Touched(t, next, t2, next2, e.time, e.context, e.context, d)
  {
    var msg := MessageOf(metric, condition, e.context, e.time, e.change);
    var d := ChangeDoc(e.change, condition);
    assert !Iterative(msg.meta.group);
    assert BaseContext(msg) == e.context && KeyNames(msg) == e.context.Keys;
    NothingToMove(e.context, d);
  }

  lemma NothingToMove(c: Doc, d: Doc)
    requires c.Keys !! d.Keys
    ensures Sorted(c, c.Keys, d) == Datum(c, d)
  {
    assert Restrict(d, c.Keys) == map[];
    assert d - c.Keys == d;
  }

  // ---------- One more alert ----------

  lemma {:induction false} LastNewIgnoresLater(log: seq<Entry>, n: nat, m: nat, c: Doc)
    requires n <= m <= |log| && forall k :: n <= k < m ==> !IsNewOf(log[k], c)
    ensures LastNew(log, m, c) == LastNew(log, n, c)
  {
    if n < m {
      LastNewIgnoresLater(log, n, m - 1, c);
    }
  }

  /** An entry that does not belong to an episode leaves its row as it is. */
  lemma RowStays(log: seq<Entry>, n: nat, condition: string, p: nat, row: Row)
    requires n < |log| && EpisodeRow(log, n, condition, p, row) && !Belongs(log, n, p)
    ensures EpisodeRow(log, n + 1, condition, p, row)
  {
    var q: nat :| LatestAlert(log, n, p, q) && row.updated == log[q].time
                  && row.data == ChangeDoc(log[q].change, condition);
    assert LatestAlert(log, n + 1, p, q);
  }

  /** An alert that belongs to an episode updates its row. */
  lemma RowUpdated(log: seq<Entry>, n: nat, condition: string, p: nat, row: Row)
    requires n < |log| && EpisodeRow(log, n, condition, p, row) && Belongs(log, n, p)
    ensures EpisodeRow(log, n + 1, condition, p,
                       Row(row.created, log[n].time, row.context, ChangeDoc(log[n].change, condition)))
  {
    assert LatestAlert(log, n + 1, p, n);
  }

  lemma FirstRow(log: seq<Entry>, n: nat, condition: string)
    requires n < |log| && IsNewOf(log[n], log[n].context)
    ensures EpisodeRow(log, n + 1, condition, n,
                       Row(log[n].time, log[n].time, log[n].context, ChangeDoc(log[n].change, condition)))
  {
    assert LatestAlert(log, n + 1, n, n);
  }

  lemma NewAlertInserts(log: seq<Entry>, n: nat, condition: string, t: Table, next: nat)
    requires n < |log| && IsNewOf(log[n], log[n].context) && HoldsEpisodes(log, n, condition, t, next)
    ensures var row := Row(log[n].time, log[n].time, log[n].context, ChangeDoc(log[n].change, condition));
            HoldsEpisodes(log, n + 1, condition, t[next := row], next + 1)
  {
    var row := Row(log[n].time, log[n].time, log[n].context, ChangeDoc(log[n].change, condition));
    var starts, m, t2 := Starts(log, n + 1), n + 1, t[next := row];
    forall id: nat | id < next + 1 ensures RowAt(log, m, condition, t2, id) {
      if id < next {
        assert RowAt(log, n, condition, t, id);
        RowStays(log, n, condition, starts[id], t[id]);
      } else {
        FirstRow(log, n, condition);
      }
    }
  }

  /** Rows are created in the order of their ids, so the latest match is the one with the largest id. */
  lemma LatestIsLast(log: seq<Entry>, n: nat, condition: string, t: Table, next: nat, c: Doc, i: nat)
    requires n <= |log| && HoldsEpisodes(log, n, condition, t, next) && TimesIncrease(log)
    ensures Latest(t, c, i) <==>
              i < next && Matches(t[i].context, c) && forall j: nat :: i < j < next ==> !Matches(t[j].context, c)
  {
    if i < next {
      forall j: nat | j < next ensures j < i ==> t[j].created < t[i].created
                               ensures j > i ==> t[i].created < t[j].created
      {
        assert RowAt(log, n, condition, t, i) && RowAt(log, n, condition, t, j);
        StartsInOrder(log, n, i, j);
        StartsInOrder(log, n, j, i);
      }
    }
  }

  /** The alert comes late: since the episode of its context began, an episode of another context that says all it
      says, and more, has begun. */
  ghost predicate Overtaken(log: seq<Entry>, n: nat)
    requires n < |log|
  {
    log[n].Alert? && KindOf(log[n].change) != New &&
    exists k {:trigger OvertakesAt(log, n, k)} :: 0 <= k < n && OvertakesAt(log, n, k)
  }

  ghost predicate OvertakesAt(log: seq<Entry>, n: nat, k: nat)
    requires k < n < |log|
  {
    var c := log[n].context;
    && IsNewOf(log[k], log[k].context) && log[k].context != c && Matches(log[k].context, c)
    && LastNew(log, n, c).Some? && LastNew(log, n, c).value < k
  }

  /** Where the row of the latest episode of a context is, and that a later row matches the context exactly when the
      alert is overtaken. */
  lemma LatestRow(log: seq<Entry>, n: nat, condition: string, t: Table, next: nat, p: nat) returns (id: nat)
    requires n < |log| && HoldsEpisodes(log, n, condition, t, next) && LastNew(log, n, log[n].context) == Some(p)
    requires log[n].Alert? && KindOf(log[n].change) != New
    ensures id < next && Starts(log, n)[id] == p && t[id].context == log[n].context
    ensures forall j: nat :: id < j < next ==> t[j].context != log[n].context
    ensures (exists j: nat :: id < j < next && Matches(t[j].context, log[n].context)) <==> Overtaken(log, n)
  {
    var c, starts := log[n].context, Starts(log, n);
    StartsAreNew(log, n);
    LastNewIsLast(log, n, c);
    assert p in starts;
    id :| 0 <= id < |starts| && starts[id] == p;
    assert RowAt(log, n, condition, t, id);
    forall j: nat | id < j < next
      ensures t[j].context != c && (Matches(t[j].context, c) <==> OvertakesAt(log, n, starts[j]))
    {
      assert RowAt(log, n, condition, t, j);
      StartsInOrder(log, n, id, j);
    }
    if Overtaken(log, n) {
      var j := OvertakerHasRow(log, n, id);
      assert id < j < next && Matches(t[j].context, c);
    }
  }

  lemma OvertakerHasRow(log: seq<Entry>, n: nat, id: nat) returns (j: nat)
    requires n < |log| && Overtaken(log, n) && id < |Starts(log, n)|
    requires LastNew(log, n, log[n].context) == Some(Starts(log, n)[id])
    ensures id < j < |Starts(log, n)| && Starts(log, n)[j] < n && OvertakesAt(log, n, Starts(log, n)[j])
  {
    StartsAreNew(log, n);
    var k: nat :| k < n && OvertakesAt(log, n, k);
    assert k in Starts(log, n);
    j :| j < |Starts(log, n)| && Starts(log, n)[j] == k;
    StartsInOrder(log, n, j, id);
  }

  lemma TouchedLatest(t: Table, next: nat, t2: Table, next2: nat, time: int, c: Doc, d: Doc, id: nat)
    requires Touched(t, next, t2, next2, time, c, c, d)
    requires Latest(t, c, id) && t[id].context == c && forall i: nat :: Latest(t, c, i) ==> i == id
    ensures t2 == t[id := Row(t[id].created, time, c, d)] && next2 == next
  {
    assert id in t && Matches(t[id].context, c);
  }

  lemma OneRowUpdated(log: seq<Entry>, n: nat, condition: string, t: Table, next: nat, p: nat, id: nat)
    requires n < |log| && HoldsEpisodes(log, n, condition, t, next) && log[n].Alert? && KindOf(log[n].change) != New
    requires id < next && Starts(log, n)[id] == p && Belongs(log, n, p)
    ensures HoldsEpisodes(log, n + 1, condition,
                          t[id := Row(t[id].created, log[n].time, t[id].context,
                                      ChangeDoc(log[n].change, condition))], next)
  {
    var starts, m := Starts(log, n), n + 1;
    var t2 := t[id := Row(t[id].created, log[n].time, t[id].context, ChangeDoc(log[n].change, condition))];
    assert Starts(log, n + 1) == starts;
    forall i: nat | i < next ensures RowAt(log, m, condition, t2, i) {
      assert RowAt(log, n, condition, t, i);
      if i == id {
        RowUpdated(log, n, condition, p, t[i]);
      } else {
        StartsInOrder(log, n, i, id);
        StartsInOrder(log, n, id, i);
        RowStays(log, n, condition, starts[i], t[i]);
      }
    }
  }

  /** A continual or end alert updates the row of its episode if it is not overtaken. */
  lemma LaterAlertUpdates(log: seq<Entry>, n: nat, condition: string, t: Table, next: nat, t2: Table, next2: nat)
    requires n < |log| && HoldsEpisodes(log, n, condition, t, next) && TimesIncrease(log) && WellSpelled(log)
    requires log[n].Alert? && KindOf(log[n].change) != New && !Overtaken(log, n)
    requires Touched(t, next, t2, next2, log[n].time, log[n].context, log[n].context,
                     ChangeDoc(log[n].change, condition))
    ensures HoldsEpisodes(log, n + 1, condition, t2, next2)
  {
    var c := log[n].context;
    GoingOnHasStart(log, n, c);
    var p := LastNew(log, n, c).value;
    var id := LatestRow(log, n, condition, t, next, p);
    forall i: nat ensures Latest(t, c, i) <==> i == id {
      LatestIsLast(log, n, condition, t, next, c, i);
    }
    TouchedLatest(t, next, t2, next2, log[n].time, c, ChangeDoc(log[n].change, condition), id);
    OneRowUpdated(log, n, condition, t, next, p, id);
  }

  /** If it is overtaken it inserts a row that no episode began. */
  lemma OvertakenAlertInserts(log: seq<Entry>, n: nat, condition: string, t: Table, next: nat, t2: Table, next2: nat)
    requires n < |log| && HoldsEpisodes(log, n, condition, t, next) && TimesIncrease(log) && WellSpelled(log)
    requires Overtaken(log, n)
    requires Touched(t, next, t2, next2, log[n].time, log[n].context, log[n].context,
                     ChangeDoc(log[n].change, condition))
    ensures next2 == next + 1
  {
    var c := log[n].context;
    GoingOnHasStart(log, n, c);
    var id := LatestRow(log, n, condition, t, next, LastNew(log, n, c).value);
    assert id in t && Matches(t[id].context, c);
    forall i: nat | Latest(t, c, i) ensures t[i].context != c {
      LatestIsLast(log, n, condition, t, next, c, i);
    }
  }

  /** One alert, exactly: the table holds one row for each episode afterwards if and only if the alert is not
      overtaken. */
  lemma IntactExactlyWhen(log: seq<Entry>, n: nat, condition: string, t: Table, next: nat, t2: Table, next2: nat)
    requires n < |log| && HoldsEpisodes(log, n, condition, t, next) && TimesIncrease(log) && WellSpelled(log)
    requires log[n].Alert? && KindOf(log[n].change) != New
    requires Touched(t, next, t2, next2, log[n].time, log[n].context, log[n].context,
                     ChangeDoc(log[n].change, condition))
    ensures HoldsEpisodes(log, n + 1, condition, t2, next2) <==> !Overtaken(log, n)
  {
    if Overtaken(log, n) {
      OvertakenAlertInserts(log, n, condition, t, next, t2, next2);
    } else {
      LaterAlertUpdates(log, n, condition, t, next, t2, next2);
    }
  }

  lemma ResetChangesNothing(log: seq<Entry>, n: nat, condition: string, t: Table, next: nat)
    requires n < |log| && log[n].Reset? && HoldsEpisodes(log, n, condition, t, next)
    ensures HoldsEpisodes(log, n + 1, condition, t, next)
  {
    var m := n + 1;
    forall i: nat | i < next ensures RowAt(log, m, condition, t, i) {
      assert RowAt(log, n, condition, t, i);
      RowStays(log, n, condition, Starts(log, n)[i], t[i]);
    }
  }

  /** No row is ever taken away, so the table never has fewer rows than there were episodes, and once it has too
      many it keeps them. */
  lemma OneMoreEntryKeepsExcess(metric: string, condition: string, log: seq<Entry>, n: nat, t: Table, next: nat,
                                t2: Table, next2: nat)
    requires n < |log| && PlainContexts(log) && '@' !in metric
    requires StoredEntry(metric, condition, log[n], t, next, t2, next2)
    ensures next2 - |Starts(log, n + 1)| >= next - |Starts(log, n)|
  {
    if log[n].Alert? {
      StoredAlert(metric, condition, log[n], t, next, t2, next2);
    }
  }

  lemma HoldsOn(metric: string, condition: string, log: seq<Entry>, n: nat, t: Table, next: nat, t2: Table, next2: nat)
    requires n < |log| && HoldsEpisodes(log, n, condition, t, next)
    requires WellSpelled(log) && PlainContexts(log) && TimesIncrease(log) && '@' !in metric
    requires StoredEntry(metric, condition, log[n], t, next, t2, next2)
    ensures HoldsEpisodes(log, n + 1, condition, t2, next2) <==> !Overtaken(log, n)
    ensures Overtaken(log, n) ==> next2 > |Starts(log, n + 1)|
  {
    var e := log[n];
    if e.Reset? {
      ResetChangesNothing(log, n, condition, t, next);
    } else {
      StoredAlert(metric, condition, e, t, next, t2, next2);
      if KindOf(e.change) == New {
        NewAlertInserts(log, n, condition, t, next);
      } else {
        IntactExactlyWhen(log, n, condition, t, next, t2, next2);
        if Overtaken(log, n) {
          OvertakenAlertInserts(log, n, condition, t, next, t2, next2);
        }
      }
    }
  }

  ghost predicate NoneOvertaken(log: seq<Entry>, n: nat)
    requires n <= |log|
  {
    forall m {:trigger Overtaken(log, m)} :: 0 <= m < n ==> !Overtaken(log, m)
  }

  /** The exact condition over a run: the table holds one row for each episode so far, and nothing else, if and only
      if no alert so far was overtaken; once one was, the table has a row too many for ever. */
  lemma {:induction false} TableHoldsEpisodesExactlyWhen(metric: string, condition: string, log: seq<Entry>,
                                                         ts: seq<Table>, nexts: seq<nat>, n: nat)
    requires n <= |log| && '@' !in metric
    requires WellSpelled(log) && PlainContexts(log) && TimesIncrease(log)
    requires Delivered(metric, condition, log, ts, nexts)
    ensures HoldsEpisodes(log, n, condition, ts[n], nexts[n]) <==> NoneOvertaken(log, n)
    ensures !NoneOvertaken(log, n) ==> nexts[n] > |Starts(log, n)|
  {
    if n > 0 {
      var k := n - 1;
      TableHoldsEpisodesExactlyWhen(metric, condition, log, ts, nexts, k);
      assert StoredEntry(metric, condition, log[k], ts[k], nexts[k], ts[k + 1], nexts[k + 1]);
      assert NoneOvertaken(log, n) <==> NoneOvertaken(log, k) && !Overtaken(log, k);
      if NoneOvertaken(log, k) {
        HoldsOn(metric, condition, log, k, ts[k], nexts[k], ts[n], nexts[n]);
      } else {
        OneMoreEntryKeepsExcess(metric, condition, log, k, ts[k], nexts[k], ts[n], nexts[n]);
      }
    }
  }

  /** From the events of a directive to the rows of its alert table. */
  lemma AlertTableOfRun(d: Directive, events: seq<Event>, condition: string, ts: seq<Table>, nexts: seq<nat>)
    requires '@' !in d.name
    requires var log := Run(d, events, |events|).log;
             PlainContexts(log) && TimesIncrease(log) && Delivered(d.name, condition, log, ts, nexts)
    ensures var log := Run(d, events, |events|).log;
            forall n :: 0 <= n <= |log| ==>
              (HoldsEpisodes(log, n, condition, ts[n], nexts[n]) <==> NoneOvertaken(log, n))
  {
    RunSpells(d, events, |events|);
    var log := Run(d, events, |events|).log;
    forall n | 0 <= n <= |log|
      ensures HoldsEpisodes(log, n, condition, ts[n], nexts[n]) <==> NoneOvertaken(log, n)
    {
      TableHoldsEpisodesExactlyWhen(d.name, condition, log, ts, nexts, n);
    }
  }

  /** No alert is overtaken when no context of the directive extends another one, as when all have the same keys. */
  lemma IncomparableContextsAreSafe(log: seq<Entry>, n: nat)
    requires n <= |log|
    requires forall i, j :: 0 <= i < |log| && 0 <= j < |log| && Matches(log[i].context, log[j].context) ==>
               log[i].context == log[j].context
    ensures NoneOvertaken(log, n)
  {
    forall m | 0 <= m < n ensures !Overtaken(log, m) {
    }
  }

  /** A run in which it happens: the alert of a device goes on while the alert of one of its ports begins. */
  lemma LargerContextSplitsEpisode(d: Directive, c: Doc, more: Doc, data: Doc, events: seq<Event>)
    requires d == Directive("down", "device", x => true, "state", x => Some(true))
    requires c == map["device" := "sw1"] && more == map["device" := "sw1", "port" := "1"]
    requires data == map["state" := "down"]
    requires events == [What(c, data), What(more, data), When(c, data, 1), When(more, data, 2), When(c, data, 3)]
    ensures PlainContexts(Run(d, events, 5).log) && TimesIncrease(Run(d, events, 5).log)
    ensures |Run(d, events, 5).log| == 3 && Overtaken(Run(d, events, 5).log, 2)
  {
    assert "port" in more && "port" !in c;
    RunOfPort(d, c, more, data, events);
    PortOvertakes(Run(d, events, 5).log, c, more);
  }

  lemma PortOvertakes(log: seq<Entry>, c: Doc, more: Doc)
    requires |log| == 3 && log[0] == Alert(c, 1, Change("down", None, true, None))
    requires log[1] == Alert(more, 2, Change("down", None, true, None))
    requires log[2] == Alert(c, 3, Change("down", Some("down"), true, Some(true)))
    requires c != more && Matches(more, c) && PlainContext(c) && PlainContext(more)
    ensures PlainContexts(log) && TimesIncrease(log) && Overtaken(log, 2)
  {
    assert LastNew(log, 1, c) == Some(0) && LastNew(log, 2, c) == Some(0);
    assert OvertakesAt(log, 2, 1);
  }

  lemma RunOfPort(d: Directive, c: Doc, more: Doc, data: Doc, events: seq<Event>)
    requires d == Directive("down", "device", x => true, "state", x => Some(true))
    requires "device" in c && c["device"] != "" && "device" in more && more["device"] != ""
    requires c != more && data == map["state" := "down"]
    requires events == [What(c, data), What(more, data), When(c, data, 1), When(more, data, 2), When(c, data, 3)]
    ensures Run(d, events, 5).log == [Alert(c, 1, Change("down", None, true, None)),
                                      Alert(more, 2, Change("down", None, true, None)),
                                      Alert(c, 3, Change("down", Some("down"), true, Some(true)))]
  {
    var empty := Last(None, None);
    assert Run(d, events, 1) == World(map[c := empty], []);
    assert Run(d, events, 2) == World(map[c := empty, more := empty], []);
    var on := Last(Some(true), Some("down"));
    var first := Alert(c, 1, Change("down", None, true, None));
    assert Run(d, events, 3) == World(map[c := on, more := empty], [first]);
    var second := Alert(more, 2, Change("down", None, true, None));
    assert Run(d, events, 4) == World(map[c := on, more := on], [first, second]);
    var third := Alert(c, 3, Change("down", Some("down"), true, Some(true)));
    assert Run(d, events, 5).log == [first, second, third];
  }

  /** What the stored data tell of a change. */
  lemma ChangeIsTold(change: Change, condition: string)
    ensures var d := ChangeDoc(change, condition);
            && d.Keys == {"value", "last_value", "state", "last_state", "condition"}
            && d["value"] == change.value && d["condition"] == condition
            && d["state"] == (if change.state then "True" else "False")
            && (change.lastValue.None? ==> d["last_value"] == "None")
            && (change.lastValue.Some? ==> d["last_value"] == change.lastValue.value)
            && (change.lastState == None ==> d["last_state"] == "None")
            && (change.lastState == Some(true) ==> d["last_state"] == "True")
            && (change.lastState == Some(false) ==> d["last_state"] == "False")
  {
  }

  /** An uplink that goes down at 5 and is up again at 9 leaves one row, with what was told last. */
  lemma UplinkRow(metric: string, condition: string, c: Doc, log: seq<Entry>, ts: seq<Table>, nexts: seq<nat>)
    requires log == [Alert(c, 5, Change("down", None, true, None)),
                     Alert(c, 7, Change("down", Some("down"), true, Some(true))),
                     Alert(c, 9, Change("up", Some("down"), false, Some(true)))]
    requires PlainContext(c) && '@' !in metric && Delivered(metric, condition, log, ts, nexts)
    ensures nexts[3] == 1 && forall id: nat :: id in ts[3] <==> id == 0
    ensures var row := ts[3][0];
            && row.created == 5 && row.updated == 9 && row.context == c
            && row.data.Keys == {"value", "last_value", "state", "last_state", "condition"}
            && row.data["value"] == "up" && row.data["last_value"] == "down"
            && row.data["state"] == "False" && row.data["last_state"] == "True"
            && row.data["condition"] == condition
  {
    assert Previous(log, 1, c) == Some(log[0]) && Previous(log, 2, c) == Some(log[1]);
    assert WellSpelled(log);
    IncomparableContextsAreSafe(log, 3);
    TableHoldsEpisodesExactlyWhen(metric, condition, log, ts, nexts, 3);
    OneStart(log, c);
    assert RowAt(log, 3, condition, ts[3], 0);
    ChangeIsTold(log[2].change, condition);
    assert LatestAlert(log, 3, 0, 2) && forall q: nat :: LatestAlert(log, 3, 0, q) ==> q == 2;
  }

  lemma OneStart(log: seq<Entry>, c: Doc)
    requires |log| == 3 && forall e <- log :: e.Alert? && e.context == c
    requires KindOf(log[0].change) == New && KindOf(log[1].change) != New && KindOf(log[2].change) != New
    ensures Starts(log, 3) == [0]
    ensures Belongs(log, 0, 0) && Belongs(log, 1, 0) && Belongs(log, 2, 0)
  {
    assert Starts(log, 1) == [0] && Starts(log, 2) == [0];
    assert LastNew(log, 1, c) == Some(0) && LastNew(log, 2, c) == Some(0) && LastNew(log, 3, c) == Some(0);
  }
}
