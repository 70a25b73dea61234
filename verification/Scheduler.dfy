/**
 The schedule parser (lib/ptolemy/scheduler/scheduler.py:35-159, 287-337) and one turn of the event loop
 (lib/ptolemy/scheduler/managers.py:288-323), each method told as events of Schedule.  The clock and
 the random draws are chosen freely within the bounds that `time` and `uniform` give.
 */
module Scheduler {
  import opened Basics
  import opened Schedule
  import opened ScheduleRuns

  /** heapq, as far as the scheduler relies on it: some entry that is due first is popped. */
  class DueHeap {
    var heap: seq<Entry>

    constructor ()
      ensures heap == []
    {
      heap := [];
    }

    method Add(due: real, p: Pair)
      modifies this
      ensures heap == old(heap) + [Entry(due, p)]
    {
      heap := heap + [Entry(due, p)];
    }

    /** None stands for the IndexError of an empty heap. */
    method Pop() returns (e: Option<Entry>, ghost i: nat)
      modifies this
      ensures e.None? <==> old(heap) == []
      ensures e.None? ==> heap == []
      ensures e.Some? ==> IsMin(old(heap), i) && e.value == old(heap)[i] && heap == Without(old(heap), i)
    {
      if heap == [] {
        return None, 0;
      }
      ghost var m := MinExists(heap);
      var k :| 0 <= k < |heap| && IsMin(heap, k);
      e, i := Some(heap[k]), k;
      heap := Without(heap, k);
    }
  }

  class Parser {
    var config: Config
    const schedule: DueHeap

    constructor (config: Config)
      ensures this.config == config && fresh(schedule) && schedule.heap == []
    {
      this.config := config;
      schedule := new DueHeap();
    }

    ghost function Now(): State
      reads this, schedule
    {
      State(schedule.heap, config)
    }

    /** delta: nothing for a zero period, otherwise the period shifted by a draw within the spread. */
    method Delay(d: Delta) returns (r: Option<real>)
      requires d.spread >= 0.0
      ensures r.None? <==> d.period == 0.0
      ensures r.Some? ==> d.period - d.spread <= r.value <= d.period + d.spread
    {
      if d.period == 0.0 {
        return None;
      }
      var shift: real := 0.0;
      if d.spread > 0.0 {
        shift :| -d.spread <= shift <= d.spread;
      }
      r := Some(d.period + shift);
    }

    /** add: schedules a test that is switched on, and does nothing for any other.  The clock is read
        some time between `at` and `until`. */
    method AddTest(p: Pair, initial: bool, at: real, until: real) returns (ghost added: seq<Entry>)
      requires ValidConfig(config) && at <= until
      modifies schedule
      ensures schedule.heap == old(schedule.heap) + added
      ensures if Active(config, p) then
                |added| == 1 && added[0].pair == p &&
                if initial then DrawableAtStart(DeltaOf(config, p), at, until, added[0].due)
                else Drawable(DeltaOf(config, p), at, until, added[0].due)
              else added == []
      ensures !initial ==> Requeued(config, p, at, until, added)
    {
      added := [];
      if Listed(config, p) {
        var d := DeltaOf(config, p);
        var delay := Delay(d);
        if delay.Some? {
          var wait := delay.value;
          if initial {
            wait :| (if delay.value < 0.0 then 3.0 * delay.value else 0.0) <= wait
                    <= (if delay.value < 0.0 then 0.0 else 3.0 * delay.value);
          }
          var passed: real :| 0.0 <= passed <= until - at;
          var now := at + passed;
          schedule.Add(now + wait, p);
          added := [Entry(now + wait, p)];
        }
      }
    }

    /** peek: the first entry is popped and put back. */
    method Peek(at: real, until: real) returns (e: Option<Entry>, ghost ev: Event)
      requires at <= until
      modifies schedule
      ensures e.None? <==> old(schedule.heap) == []
      ensures e.None? ==> Now() == old(Now())
      ensures e.Some? ==>
                && ev.Peek? && ev.at == at && ev.until == until
                && Enabled(old(Now()), ev) && Now() == Apply(old(Now()), ev)
                && e.value == old(schedule.heap)[ev.index]
    {
      ghost var i;
      e, i := schedule.Pop();
      ev := Event.Peek(at, until, i);
      if e.Some? {
        schedule.Add(e.value.due, e.value.pair);
      }
    }

    /** next: the first entry is popped, and its test put back if it is still switched on. */
    method Next(at: real, until: real) returns (e: Option<Entry>, ghost ev: Event)
      requires ValidConfig(config) && at <= until
      modifies schedule
      ensures e.None? <==> old(schedule.heap) == []
      ensures e.Some? ==>
                && ev.Dispatch? && ev.at == at && ev.until == until && ev.index < |old(schedule.heap)|
                && e.value == old(schedule.heap)[ev.index] && IsMin(old(schedule.heap), ev.index)
                && (e.value.due <= at ==> Enabled(old(Now()), ev))
                && Now() == Apply(old(Now()), ev)
                && Requeued(config, e.value.pair, at, until, ev.requeued)
    {
      ghost var i, requeued;
      e, i := schedule.Pop();
      if e.Some? {
        requeued := AddTest(e.value.pair, false, at, until);
        ev := Dispatch(at, until, i, requeued);
      } else {
        ev := Dispatch(at, until, i, []);
      }
    }

    /** The body shared by init_schedule and reset_schedule: for every configured host and spec, in any
        order, add what `known` does not list. */
    method AddAll(known: map<string, set<string>>, initial: bool, at: real, until: real)
      returns (ghost added: seq<Entry>)
      requires ValidConfig(config) && at <= until
      modifies schedule
      ensures schedule.heap == old(schedule.heap) + added
      ensures AddedAnew(config, KnownPairs(known), initial, at, until, added)
    {
      added := [];
      var hosts := config.hosts.Keys;
      while hosts != {}
        invariant hosts <= config.hosts.Keys
        invariant schedule.heap == old(schedule.heap) + added
        invariant AddedSoFar(config, KnownPairs(known), initial, at, until, added, OnHosts(config, hosts))
        decreases hosts
      {
        var n :| n in hosts;
        ghost var more := AddHost(n, known, initial, at, until, added, hosts);
        hosts, added := hosts - {n}, added + more;
      }
    }

    /** init_schedule; on the empty heap it leaves one entry for every test that is switched on. */
    method InitSchedule(at: real, until: real) returns (ghost added: seq<Entry>)
      requires ValidConfig(config) && at <= until
      modifies schedule
      ensures schedule.heap == old(schedule.heap) + added && AddedAnew(config, iset{}, true, at, until, added)
      ensures old(schedule.heap) == [] ==> ExactlyOnce(Now())
    {
      added := AddAll(map[], true, at, until);
      assert KnownPairs(map[]) == iset{};
      assert old(schedule.heap) == [] ==> schedule.heap == added;
    }

    /** reset_schedule: loads a new configuration and adds the tests that were not listed before.  Tests that are no
        longer listed stay in the heap until they come up. */
    method ResetSchedule(loaded: Config, at: real, until: real) returns (ghost ev: Event)
      requires ValidConfig(loaded) && at <= until
      modifies this, schedule
      ensures config == loaded
      ensures ev.Reload? && ev.at == at && ev.until == until && ev.config == loaded
      ensures Enabled(old(Now()), ev) && Now() == Apply(old(Now()), ev)
    {
      var current := map n | n in config.hosts :: SpecsOf(config, n).Keys;
      assert KnownPairs(current) == ListedPairs(config);
      config := loaded;
      ghost var added := AddAll(current, false, at, until);
      ev := Reload(at, until, loaded, added);
    }

    /** One turn of the event loop: peek, and dispatch the entry if it is due.  A turn finds something to
        dispatch exactly when some entry is due, and fails on an empty heap. */
    method Serve(at: real, until: real) returns (turn: Turn, ghost states: seq<State>, ghost events: seq<Event>)
      requires ValidConfig(config) && at <= until
      modifies schedule
      ensures Run(states, events) && states[0] == old(Now()) && states[|events|] == Now()
      ensures forall ev <- events :: ev.at == at && !ev.Reload?
      ensures turn.EmptySchedule? <==> old(schedule.heap) == []
      ensures turn.Dispatched? <==> exists e <- old(schedule.heap) :: e.due <= at
      ensures turn.Dispatched? ==>
                && turn.entry.due <= at && turn.entry in old(schedule.heap)
                && |events| == 2 && Dispatches(states[1], events[1], turn.entry.pair)
    {
      var first, ev := Peek(at, at);
      if first.None? {
        return EmptySchedule, [Now()], [];
      }
      states, events := [old(Now()), Now()], [ev];
      assert first.value in old(schedule.heap);
      if first.value.due > at {
        return Idle, states, events;
      }
      var e, ev2 := Next(at, until);
      PeekKeepsEntries(states[0].heap, ev.index);
      turn, states, events := Dispatched(e.value), states + [Now()], events + [ev2];
    }

    /** The inner loop, over the specs of one host. */
    method AddHost(n: string, known: map<string, set<string>>, initial: bool, at: real, until: real,
                   ghost before: seq<Entry>, ghost hosts: set<string>) returns (ghost more: seq<Entry>)
      requires ValidConfig(config) && at <= until && n in hosts && hosts <= config.hosts.Keys
      requires AddedSoFar(config, KnownPairs(known), initial, at, until, before, OnHosts(config, hosts))
      modifies schedule
      ensures schedule.heap == old(schedule.heap) + more
      ensures AddedSoFar(config, KnownPairs(known), initial, at, until, before + more, OnHosts(config, hosts - {n}))
    {
      more := [];
      var specs := SpecsOf(config, n).Keys;
      ghost var rest := OnHosts(config, hosts - {n});
      assert OnHosts(config, hosts) == rest + OfSpecs(n, specs) && before + [] == before;
      while specs != {}
        invariant specs <= SpecsOf(config, n).Keys
        invariant schedule.heap == old(schedule.heap) + more
        invariant AddedSoFar(config, KnownPairs(known), initial, at, until, before + more, rest + OfSpecs(n, specs))
        decreases specs
      {
        var s :| s in specs;
        ghost var one: seq<Entry> := [];
        ghost var heap := schedule.heap;
        if n !in known || s !in known[n] {
          one := AddTest(Pair(n, s), initial, at, until);
        }
        assert schedule.heap == heap + one;
        assert old(schedule.heap) + (more + one) == heap + one;
        OneMoreOfHost(config, KnownPairs(known), initial, at, until, before, more, n, s, one, rest, specs);
        specs, more := specs - {s}, more + one;
      }
      assert rest + OfSpecs(n, {}) == rest;
    }
  }

  /** What a turn of the event loop did. */
  datatype Turn = Idle | Dispatched(entry: Entry) | EmptySchedule

  /** An entry that is popped and put back: the heap has the same entries, each as often as before. */
  lemma PeekKeepsEntries(heap: seq<Entry>, i: nat)
    requires i < |heap|
    ensures multiset(Without(heap, i) + [heap[i]]) == multiset(heap)
    ensures forall e :: e in Without(heap, i) + [heap[i]] <==> e in heap
  {
    assert heap == heap[..i] + [heap[i]] + heap[i + 1..];
    assert Without(heap, i) == heap[..i] + heap[i + 1..];
  }

  ghost function KnownPairs(known: map<string, set<string>>): iset<Pair> {
    iset p: Pair | p.node in known && p.spec in known[p.node]
  }

  /** The pairs on hosts still to visit. */
  ghost function OnHosts(c: Config, hosts: set<string>): iset<Pair> {
    iset p | Listed(c, p) && p.node in hosts
  }

  ghost function OfSpecs(n: string, specs: set<string>): iset<Pair> {
    iset p: Pair | p.node == n && p.spec in specs
  }

  /** AddedAnew, but for the pairs in `pending`. */
  ghost predicate AddedSoFar(c: Config, known: iset<Pair>, initial: bool, at: real, until: real, added: seq<Entry>,
                             pending: iset<Pair>)
  {
    && (forall p :: Count(added, For(p)) == if Active(c, p) && p !in known && p !in pending then 1 else 0)
    && forall e <- added :: Active(c, e.pair) &&
         if initial then DrawableAtStart(DeltaOf(c, e.pair), at, until, e.due)
         else Drawable(DeltaOf(c, e.pair), at, until, e.due)
  }

  lemma OneMoreOfHost(c: Config, known: iset<Pair>, initial: bool, at: real, until: real, before: seq<Entry>,
                      more: seq<Entry>, n: string, s: string, one: seq<Entry>, rest: iset<Pair>, specs: set<string>)
    requires s in specs && Pair(n, s) !in rest
    requires AddedSoFar(c, known, initial, at, until, before + more, rest + OfSpecs(n, specs))
    requires if Active(c, Pair(n, s)) && Pair(n, s) !in known then
               |one| == 1 && one[0].pair == Pair(n, s) &&
               if initial then DrawableAtStart(DeltaOf(c, Pair(n, s)), at, until, one[0].due)
               else Drawable(DeltaOf(c, Pair(n, s)), at, until, one[0].due)
             else one == []
    ensures AddedSoFar(c, known, initial, at, until, before + (more + one), rest + OfSpecs(n, specs - {s}))
  {
    OneMoreAdded(c, known, initial, at, until, before + more, Pair(n, s), one, rest + OfSpecs(n, specs));
    assert rest + OfSpecs(n, specs - {s}) == rest + OfSpecs(n, specs) - iset{Pair(n, s)};
    assert before + (more + one) == before + more + one;
  }

  lemma OneMoreAdded(c: Config, known: iset<Pair>, initial: bool, at: real, until: real, added: seq<Entry>,
                     p: Pair, one: seq<Entry>, pending: iset<Pair>)
    requires AddedSoFar(c, known, initial, at, until, added, pending)
    requires p in pending
    requires if Active(c, p) && p !in known then
               |one| == 1 && one[0].pair == p &&
               if initial then DrawableAtStart(DeltaOf(c, p), at, until, one[0].due)
               else Drawable(DeltaOf(c, p), at, until, one[0].due)
             else one == []
    ensures AddedSoFar(c, known, initial, at, until, added + one, pending - iset{p})
  {
    forall q
      ensures Count(added + one, For(q)) == if Active(c, q) && q !in known && q !in pending - iset{p} then 1 else 0
    {
      CountAppend(added, one, For(q));
      if one != [] {
        assert one == [one[0]];
      }
    }
  }
}
