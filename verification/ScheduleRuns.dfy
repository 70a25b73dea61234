/**
 What a whole run of the scheduler guarantees: every configured test stays in the heap exactly once, a
 removed test comes up at most once more, nothing that is due can be overtaken for ever, and a test is
 never dispatched early or too soon after its last time (lib/ptolemy/scheduler/scheduler.py:95-159,
 301-337; lib/ptolemy/scheduler/managers.py:295-315).
 */
module ScheduleRuns {
  import opened Basics
  import opened Schedule

  /** A run: every event was possible in its state, and the clock never goes back. */
  ghost predicate Run(states: seq<State>, events: seq<Event>) {
    && |states| == |events| + 1
    && (forall i {:trigger events[i]} | 0 <= i < |events| ::
          Enabled(states[i], events[i]) && states[i + 1] == Apply(states[i], events[i]))
    && (forall i, j | 0 <= i < j < |events| :: events[i].until <= events[j].at)
  }

  // ---------- Exactly once ----------

  ghost predicate ExactlyOnce(s: State) {
    forall p :: Count(s.heap, For(p)) <= 1 && (Active(s.config, p) ==> Count(s.heap, For(p)) == 1)
  }

  /** A reload to `c` neither brings back a test whose old entry is still there, nor switches on a
      listed test whose entry is gone. */
  ghost predicate CleanReload(s: State, c: Config) {
    forall p {:trigger Active(c, p)} :: Active(c, p) ==>
      Count(s.heap, For(p)) == if Listed(s.config, p) then 1 else 0
  }

  lemma CountAfter(s: State, ev: Event, p: Pair)
    requires Enabled(s, ev)
    ensures Count(Apply(s, ev).heap, For(p)) == Count(s.heap, For(p)) +
            match ev
            case Peek(_, _, _) => 0
            case Dispatch(_, _, i, _) => if s.heap[i].pair == p && !Active(s.config, p) then -1 else 0
            case Reload(_, _, c, _) => if Active(c, p) && !Listed(s.config, p) then 1 else 0
  {
    match ev
    case Peek(_, _, i) =>
      CountAppend(Without(s.heap, i), [s.heap[i]], For(p));
      CountWithout(s.heap, i, For(p));
    case Dispatch(_, _, i, requeued) =>
      CountAppend(Without(s.heap, i), requeued, For(p));
      CountWithout(s.heap, i, For(p));
      if requeued != [] {
        assert requeued == [requeued[0]];
      }
    case Reload(_, _, c, added) =>
      CountAppend(s.heap, added, For(p));
  }

  lemma ServingKeepsExactlyOnce(s: State, ev: Event)
    requires Enabled(s, ev) && !ev.Reload? && ExactlyOnce(s)
    ensures ExactlyOnce(Apply(s, ev))
  {
    forall p ensures Count(Apply(s, ev).heap, For(p)) <= 1
                     && (Active(s.config, p) ==> Count(Apply(s, ev).heap, For(p)) == 1)
    {
      CountAfter(s, ev, p);
    }
  }

  /** A reload keeps every test in the heap exactly once if and only if it is clean. */
  lemma ReloadKeepsExactlyOnce(s: State, ev: Event)
    requires Enabled(s, ev) && ev.Reload? && ExactlyOnce(s)
    ensures ExactlyOnce(Apply(s, ev)) <==> CleanReload(s, ev.config)
  {
    var next := Apply(s, ev);
    forall p ensures Count(next.heap, For(p)) ==
                     Count(s.heap, For(p)) + if Active(ev.config, p) && !Listed(s.config, p) then 1 else 0
    {
      CountAfter(s, ev, p);
    }
    if ExactlyOnce(next) {
      forall p | Active(ev.config, p)
        ensures Count(s.heap, For(p)) == if Listed(s.config, p) then 1 else 0
      {
        assert Count(next.heap, For(p)) == 1;
      }
    }
  }

  /** A configuration with one test, every ten seconds. */
  function OneTest(p: Pair, period: real): Config {
    Config(map[p.node := Host(None, map[p.spec := Delta(period, 0.0)])], map[])
  }

  /** Two reloads that are not clean: a test that comes back while its old entry waits is in the heap
      twice, and a test whose period was zero is not in the heap at all once it is switched on. */
  lemma UncleanReloads(p: Pair, old_: Entry, back: Event, on: Event)
    requires p == Pair("rtr", "arp") && old_ == Entry(100.0, p)
    requires back.Reload? && back.config == OneTest(p, 10.0)
    requires Enabled(State([old_], Config(map[], map[])), back)
    requires on.Reload? && on.config == OneTest(p, 10.0)
    requires Enabled(State([], OneTest(p, 0.0)), on)
    ensures Active(on.config, p)
    ensures Count(Apply(State([old_], Config(map[], map[])), back).heap, For(p)) == 2
    ensures Count(Apply(State([], OneTest(p, 0.0)), on).heap, For(p)) == 0
  {
    assert Count([old_], For(p)) == 1 + Count([], For(p));
    CountAfter(State([old_], Config(map[], map[])), back, p);
    CountAfter(State([], OneTest(p, 0.0)), on, p);
  }

  /** Through any interleaving of peeks, dispatches and clean reloads. */
  lemma {:induction false} ExactlyOnceForEver(states: seq<State>, events: seq<Event>, k: nat)
    requires Run(states, events) && k < |states|
    requires ExactlyOnce(states[0])
    requires forall i {:trigger events[i]} | 0 <= i < |events| ::
               events[i].Reload? ==> CleanReload(states[i], events[i].config)
    ensures ExactlyOnce(states[k])
  {
    if k > 0 {
      ExactlyOnceForEver(states, events, k - 1);
      var ev := events[k - 1];
      if !ev.Reload? {
        ServingKeepsExactlyOnce(states[k - 1], ev);
      } else {
        ReloadKeepsExactlyOnce(states[k - 1], ev);
      }
    }
  }

  // ---------- Removed tests ----------

  ghost predicate Dispatches(s: State, ev: Event, p: Pair) {
    ev.Dispatch? && ev.index < |s.heap| && s.heap[ev.index].pair == p
  }

  /** How often `p` is dispatched in the first `n` events. */
  ghost function Times(states: seq<State>, events: seq<Event>, p: Pair, n: nat): nat
    requires |states| > |events| >= n
  {
    if n == 0 then 0
    else Times(states, events, p, n - 1) + if Dispatches(states[n - 1], events[n - 1], p) then 1 else 0
  }

  /** While a test is switched off or not configured, every dispatch of it uses up one heap entry. */
  lemma {:induction false} RemovedRunsOut(states: seq<State>, events: seq<Event>, p: Pair, n: nat)
    requires Run(states, events) && n <= |events|
    requires forall i | 0 <= i < |states| :: !Active(states[i].config, p)
    ensures Times(states, events, p, n) + Count(states[n].heap, For(p)) == Count(states[0].heap, For(p))
  {
    if n > 0 {
      RemovedRunsOut(states, events, p, n - 1);
      CountAfter(states[n - 1], events[n - 1], p);
      assert states[n] == Apply(states[n - 1], events[n - 1]);
      assert !Active(states[n].config, p) && !Active(states[n - 1].config, p);
    }
  }

  /** A removed test is returned at most once more. */
  lemma RemovedAtMostOnceMore(states: seq<State>, events: seq<Event>, p: Pair)
    requires Run(states, events) && ExactlyOnce(states[0])
    requires forall i | 0 <= i < |states| :: !Active(states[i].config, p)
    ensures Times(states, events, p, |events|) <= 1
  {
    RemovedRunsOut(states, events, p, |events|);
  }

  // ---------- Fairness ----------

  ghost function DispatchCount(events: seq<Event>, n: nat): nat
    requires n <= |events|
  {
    if n == 0 then 0 else DispatchCount(events, n - 1) + if events[n - 1].Dispatch? then 1 else 0
  }

  /** Entries due by `t`, once the clock has passed `t`: a dispatch of another entry removes one of them,
      and nothing adds to them. */
  lemma DueByShrinks(s: State, ev: Event, t: real)
    requires Enabled(s, ev) && t <= ev.at
    requires PositiveDelays(s.config) && (ev.Reload? ==> PositiveDelays(ev.config))
    requires exists e <- s.heap :: e.due <= t
    ensures Count(Apply(s, ev).heap, DueBy(t)) == Count(s.heap, DueBy(t)) - if ev.Dispatch? then 1 else 0
  {
    match ev
    case Peek(_, _, i) =>
      CountAppend(Without(s.heap, i), [s.heap[i]], DueBy(t));
      CountWithout(s.heap, i, DueBy(t));
    case Dispatch(at, until, i, requeued) =>
      assert s.heap[i].due <= t;
      CountAppend(Without(s.heap, i), requeued, DueBy(t));
      CountWithout(s.heap, i, DueBy(t));
      if requeued != [] {
        assert requeued == [requeued[0]];
        assert DeltaOf(s.config, s.heap[i].pair).period > DeltaOf(s.config, s.heap[i].pair).spread;
      }
    case Reload(at, until, c, added) =>
      CountAppend(s.heap, added, DueBy(t));
      CountBounds(added, DueBy(t));
      forall e | e in added ensures !DueBy(t)(e) {
        assert DeltaOf(c, e.pair).period > DeltaOf(c, e.pair).spread;
      }
  }

  /** Fairness: while an entry that is already due waits, at most (heap size - 1) others go first,
      reloads or not. */
  lemma {:induction false} DueEntryIsNotOvertaken(states: seq<State>, events: seq<Event>, e: Entry, n: nat)
    requires Run(states, events) && n <= |events|
    requires forall i | 0 <= i < |states| :: PositiveDelays(states[i].config)
    requires forall i | 0 <= i <= n :: e in states[i].heap
    requires forall i | 0 <= i < |events| :: e.due <= events[i].at
    ensures DispatchCount(events, n) <= Count(states[0].heap, DueBy(e.due)) - 1
    ensures DispatchCount(events, n) <= |states[0].heap| - 1
  {
    DueCountdown(states, events, e, n);
    CountBounds(states[n].heap, DueBy(e.due));
    assert e in states[n].heap && DueBy(e.due)(e);
    CountBounds(states[0].heap, DueBy(e.due));
  }

  lemma {:induction false} DueCountdown(states: seq<State>, events: seq<Event>, e: Entry, n: nat)
    requires Run(states, events) && n <= |events|
    requires forall i | 0 <= i < |states| :: PositiveDelays(states[i].config)
    requires forall i | 0 <= i <= n :: e in states[i].heap
    requires forall i | 0 <= i < |events| :: e.due <= events[i].at
    ensures Count(states[n].heap, DueBy(e.due)) + DispatchCount(events, n) == Count(states[0].heap, DueBy(e.due))
  {
    if n > 0 {
      DueCountdown(states, events, e, n - 1);
      assert e in states[n - 1].heap;
      assert states[n] == Apply(states[n - 1], events[n - 1]);
      assert PositiveDelays(states[n].config);
      DueByShrinks(states[n - 1], events[n - 1], e.due);
    }
  }

  // ---------- Spacing ----------

  /** Every entry of `p` is due at `t` or later. */
  ghost predicate NotBefore(heap: seq<Entry>, p: Pair, t: real) {
    forall e <- heap :: e.pair == p ==> t <= e.due
  }

  lemma RequeuedLater(s: State, ev: Event, p: Pair)
    requires Enabled(s, ev) && Dispatches(s, ev, p) && Active(s.config, p)
    requires Count(s.heap, For(p)) == 1
    ensures var d := DeltaOf(s.config, p);
            NotBefore(Apply(s, ev).heap, p, ev.at + d.period - d.spread)
  {
    CountWithout(s.heap, ev.index, For(p));
    CountBounds(Without(s.heap, ev.index), For(p));
    forall e | e in Without(s.heap, ev.index) ensures e.pair != p {
      assert For(p)(e) <==> e.pair == p;
    }
  }

  lemma StepNotBefore(s: State, ev: Event, p: Pair, t: real)
    requires Enabled(s, ev) && NotBefore(s.heap, p, t)
    requires !Dispatches(s, ev, p) && Count(Apply(s, ev).heap, For(p)) == Count(s.heap, For(p))
    ensures NotBefore(Apply(s, ev).heap, p, t)
  {
    if ev.Reload? {
      CountAppend(s.heap, ev.added, For(p));
      CountBounds(ev.added, For(p));
      assert Count(ev.added, For(p)) == 0;
      forall e | e in ev.added ensures e.pair != p {
        assert !For(p)(e);
      }
    }
  }

  /** Event `k` is no dispatch of `p`, and leaves the one entry that it has. */
  ghost predicate LeftAlone(states: seq<State>, events: seq<Event>, p: Pair, k: int) {
    && 0 <= k < |states| - 1 && k < |events| && !Dispatches(states[k], events[k], p)
    && Count(states[k].heap, For(p)) == 1 && Count(states[k + 1].heap, For(p)) == 1
  }

  lemma {:induction false} StaysNotBefore(states: seq<State>, events: seq<Event>, p: Pair, t: real, i: nat, j: nat)
    requires Run(states, events) && i <= j < |states|
    requires NotBefore(states[i].heap, p, t)
    requires forall k {:trigger LeftAlone(states, events, p, k)} | i <= k < j :: LeftAlone(states, events, p, k)
    ensures NotBefore(states[j].heap, p, t)
    decreases j - i
  {
    if i < j {
      StaysNotBefore(states, events, p, t, i, j - 1);
      var ev := events[j - 1];
      assert Enabled(states[j - 1], ev) && states[j] == Apply(states[j - 1], ev);
      assert LeftAlone(states, events, p, j - 1);
      StepNotBefore(states[j - 1], events[j - 1], p, t);
    }
  }

  /** Spacing: with one entry for a test all along, whether it is listed or not, it is not dispatched before it is
      due, and two dispatches in a row are at least period - spread apart. */
  lemma DispatchesAreSpaced(states: seq<State>, events: seq<Event>, p: Pair, i: nat, j: nat)
    requires Run(states, events) && i < j < |events|
    requires Dispatches(states[i], events[i], p) && Dispatches(states[j], events[j], p)
    requires forall k {:trigger LeftAlone(states, events, p, k)} | i < k < j :: LeftAlone(states, events, p, k)
    requires Active(states[i].config, p) && Count(states[i].heap, For(p)) == 1
    ensures states[j].heap[events[j].index].due <= events[j].at
    ensures var d := DeltaOf(states[i].config, p);
            events[j].at - events[i].at >= d.period - d.spread
  {
    var d := DeltaOf(states[i].config, p);
    assert Enabled(states[i], events[i]) && Enabled(states[j], events[j]);
    RequeuedLater(states[i], events[i], p);
    StaysNotBefore(states, events, p, events[i].at + d.period - d.spread, i + 1, j);
  }
}
