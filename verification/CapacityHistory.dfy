/**
 Link utilisation from a pruned history of packet counters (lib/ptolemy/analyse/capacity.py:18-28,
 91-147, 226-271).  A history is a redis sorted set: counter values scored by the time they were seen.
 */
module CapacityHistory {
  import opened Basics

  datatype Sample = Sample(time: real, counter: int)

  /** A sorted set holds a member once: adding a counter again moves it to its new time. */
  type History = map<int, real>

  const RANGES: seq<int> := [1, 5, 15, 30, 60]
  const KEEP: real := 120.0

  function Ago(now: real, t: int): real {
    now - (t as real) * 60.0
  }

  /** Everything at or below this time is removed after an analysis at `now`. */
  function Horizon(now: real): real {
    Ago(now, 60) - KEEP
  }

  // ---------- Order of a sorted set ----------

  /** Redis breaks ties between members by their text; `rank` stands for that order. */
  predicate Precedes(rank: int -> int, a: Sample, b: Sample) {
    a.time > b.time || (a.time == b.time && rank(a.counter) > rank(b.counter))
  }

  ghost predicate Holds(h: History, s: Sample) {
    s.counter in h && h[s.counter] == s.time
  }

  /** zrevrange over the whole set: every sample, the latest first. */
  ghost predicate Listing(rank: int -> int, h: History, list: seq<Sample>) {
    && (forall s :: s in list <==> Holds(h, s))
    && forall i, j | 0 <= i < j < |list| :: Precedes(rank, list[i], list[j])
  }

  /** `r` is the latest sample strictly between `lo` and `hi`, if there is one. */
  ghost predicate LatestBetween(rank: int -> int, h: History, lo: real, hi: real, r: Option<Sample>) {
    match r
    case None => forall s | Holds(h, s) :: !(lo < s.time < hi)
    case Some(x) =>
      && Holds(h, x) && lo < x.time < hi
      && forall s | Holds(h, s) && lo < s.time < hi && s != x :: Precedes(rank, x, s)
  }

  ghost predicate Latest(rank: int -> int, h: History, r: Option<Sample>) {
    match r
    case None => h == map[]
    case Some(x) => Holds(h, x) && forall s | Holds(h, s) && s != x :: Precedes(rank, x, s)
  }

  // ---------- Rates ----------

  function Share(bits: real, capacity: real, secs: real): real
    requires capacity != 0.0 && secs != 0.0
  {
    NonZeroProduct(capacity, secs);
    bits / (capacity * secs)
  }

  /** rate: None without two samples, without a capacity, or when no time has passed. */
  function Rate(latest: Option<Sample>, oldest: Option<Sample>, capacity: Option<real>): Option<real> {
    if latest.Some? && oldest.Some? && capacity.Some? && capacity.value != 0.0
       && latest.value.time != oldest.value.time
    then
      Some(Share(8.0 * (latest.value.counter - oldest.value.counter) as real, capacity.value,
                 latest.value.time - oldest.value.time))
    else None
  }

  lemma NonZeroProduct(a: real, b: real)
    requires a != 0.0 && b != 0.0
    ensures a * b != 0.0
  {
    var c := 1.0 / b;
    assert b * c == 1.0;
    assert (a * b) * c == a * (b * c);
  }

  /** A share of the capacity: the bits that were counted, over the bits that the link could carry in the time.  The
      counters are in bytes, the latest comes first, and a counter that falls gives a negative rate. */
  lemma RateIsShare(latest: Sample, oldest: Sample, capacity: real, share: real)
    requires capacity != 0.0 && latest.time != oldest.time
    requires 8.0 * (latest.counter - oldest.counter) as real == share * (capacity * (latest.time - oldest.time))
    ensures Rate(Some(latest), Some(oldest), Some(capacity)) == Some(share)
  {
    ShareIs(8.0 * (latest.counter - oldest.counter) as real, capacity, latest.time - oldest.time, share);
  }

  lemma ShareIs(bits: real, capacity: real, secs: real, share: real)
    requires capacity != 0.0 && secs != 0.0 && bits == share * (capacity * secs)
    ensures Share(bits, capacity, secs) == share
  {
    NonZeroProduct(capacity, secs);
    Quotient(bits, share, capacity * secs);
  }

  lemma Quotient(bits: real, share: real, total: real)
    requires total != 0.0 && bits == share * total
    ensures bits / total == share
  {
    var c := 1.0 / total;
    assert bits / total == (share * total) * c;
    assert (share * total) * c == share * (total * c);
  }

  lemma NoRateExactlyWhen(latest: Option<Sample>, oldest: Option<Sample>, capacity: Option<real>)
    ensures Rate(latest, oldest, capacity).None?
            <==> latest.None? || oldest.None? || capacity.None? || capacity == Some(0.0)
                 || latest.value.time == oldest.value.time
  {
  }

  /** The score of every range, told from the history alone. */
  ghost predicate Scores(rank: int -> int, h: History, now: real, capacity: Option<real>,
                         score: map<int, Option<real>>)
  {
    && score.Keys == (set t | t in RANGES)
    && forall t <- RANGES ::
         exists recent, at ::
           Latest(rank, h, recent) && LatestBetween(rank, h, Ago(now, t) - 60.0, Ago(now, t), at)
           && score[t] == Rate(recent, at, capacity)
  }

  // ---------- analyse ----------

  /** The first of the first `k` samples that lies between `lo` and `hi`. */
  function FirstBetween(list: seq<Sample>, k: nat, lo: real, hi: real): Option<Sample>
    requires k <= |list|
  {
    if k == 0 then None
    else
      var before := FirstBetween(list, k - 1, lo, hi);
      if before.None? && lo < list[k - 1].time < hi then Some(list[k - 1]) else before
  }

  lemma {:induction false} FirstBetweenIsFirst(rank: int -> int, list: seq<Sample>, k: nat, lo: real, hi: real)
    requires forall i, j | 0 <= i < j < |list| :: Precedes(rank, list[i], list[j])
    requires k <= |list|
    ensures match FirstBetween(list, k, lo, hi)
            case None => forall i | 0 <= i < k :: !(lo < list[i].time < hi)
            case Some(x) => exists m | 0 <= m < k ::
                              && list[m] == x && lo < x.time < hi
                              && forall i | 0 <= i < k && i != m && lo < list[i].time < hi :: Precedes(rank, x, list[i])
  {
    if k > 0 {
      FirstBetweenIsFirst(rank, list, k - 1, lo, hi);
    }
  }

  lemma FirstBetweenIsLatest(rank: int -> int, h: History, list: seq<Sample>, lo: real, hi: real)
    requires Listing(rank, h, list)
    ensures LatestBetween(rank, h, lo, hi, FirstBetween(list, |list|, lo, hi))
  {
    FirstBetweenIsFirst(rank, list, |list|, lo, hi);
    forall s | Holds(h, s) ensures s in list {
    }
    if FirstBetween(list, |list|, lo, hi).Some? {
      assert FirstBetween(list, |list|, lo, hi).value in list;
    }
  }

  lemma HeadIsLatest(rank: int -> int, h: History, list: seq<Sample>)
    requires Listing(rank, h, list)
    ensures Latest(rank, h, if list == [] then None else Some(list[0]))
  {
    if list == [] {
      forall c | c in h ensures false {
        assert Holds(h, Sample(h[c], c));
      }
    } else {
      assert list[0] in list;
      forall s | Holds(h, s) && s != list[0] ensures Precedes(rank, list[0], s) {
        assert s in list;
      }
    }
  }

  /** A port of 60 bit/s that was full between 90 and 30 seconds ago: the last minute is scored, and for the longer
      ranges there is no sample. */
  lemma FullForAMinute(rank: int -> int, h: History, now: real, score: map<int, Option<real>>)
    requires h == map[1000 := now - 90.0, 1450 := now - 30.0]
    requires Scores(rank, h, now, Some(60.0), score)
    ensures score == map[1 := Some(1.0), 5 := None, 15 := None, 30 := None, 60 := None]
  {
    forall t | t in RANGES ensures score[t] == if t == 1 then Some(1.0) else None {
      var recent, at :| Latest(rank, h, recent) && LatestBetween(rank, h, Ago(now, t) - 60.0, Ago(now, t), at)
                        && score[t] == Rate(recent, at, Some(60.0));
      PicksOfMinute(rank, h, now, t, recent, at);
      RateOfMinute(now);
    }
    SpelledOut(score);
  }

  lemma SpelledOut(score: map<int, Option<real>>)
    requires score.Keys == set t | t in RANGES
    requires forall t <- RANGES :: score[t] == if t == 1 then Some(1.0) else None
    ensures score == map[1 := Some(1.0), 5 := None, 15 := None, 30 := None, 60 := None]
  {
    assert forall t :: t in RANGES <==> t in {1, 5, 15, 30, 60};
  }

  lemma RateOfMinute(now: real)
    ensures Rate(Some(Sample(now - 30.0, 1450)), Some(Sample(now - 90.0, 1000)), Some(60.0)) == Some(1.0)
  {
    RateIsShare(Sample(now - 30.0, 1450), Sample(now - 90.0, 1000), 60.0, 1.0);
  }

  lemma PicksOfMinute(rank: int -> int, h: History, now: real, t: int, recent: Option<Sample>, at: Option<Sample>)
    requires h == map[1000 := now - 90.0, 1450 := now - 30.0] && t in RANGES
    requires Latest(rank, h, recent) && LatestBetween(rank, h, Ago(now, t) - 60.0, Ago(now, t), at)
    ensures recent == Some(Sample(now - 30.0, 1450))
    ensures at == if t == 1 then Some(Sample(now - 90.0, 1000)) else None
  {
    var young, old_ := Sample(now - 30.0, 1450), Sample(now - 90.0, 1000);
    assert Holds(h, young) && Holds(h, old_);
  }

  type Picks = map<int, Option<Sample>>

  /** The inner loop of analyse: a sample is taken for every range that still lacks one and that it is
      just older than. */
  method NoteSample(at: Picks, x: Sample, now: real) returns (next: Picks)
    requires at.Keys == set t | t in RANGES
    ensures next.Keys == at.Keys
    ensures forall t <- at :: next[t] ==
              if at[t].None? && Ago(now, t) - 60.0 < x.time < Ago(now, t) then Some(x) else at[t]
  {
    next := at;
    var todo := at.Keys;
    while todo != {}
      invariant todo <= at.Keys && next.Keys == at.Keys
      invariant forall t <- at :: next[t] ==
                  if t !in todo && at[t].None? && Ago(now, t) - 60.0 < x.time < Ago(now, t) then Some(x) else at[t]
      decreases todo
    {
      var t :| t in todo;
      if next[t].None? && x.time < Ago(now, t) && x.time > Ago(now, t) - 60.0 {
        next := next[t := Some(x)];
      }
      todo := todo - {t};
    }
  }

  /** analyse: one pass over the listed samples picks the latest, and for every range the latest that is
      just older than the range. */
  method Analyse(ghost rank: int -> int, ghost h: History, data: seq<Sample>, now: real, capacity: Option<real>)
    returns (score: map<int, Option<real>>, raw: seq<Sample>)
    requires Listing(rank, h, data)
    ensures raw == data
    ensures Scores(rank, h, now, capacity, score)
  {
    raw := [];
    var recent: Option<Sample> := None;
    var at: Picks := map t | t in RANGES :: None;
    for k := 0 to |data|
      invariant raw == data[..k]
      invariant recent == if k == 0 then None else Some(data[0])
      invariant at.Keys == set t | t in RANGES
      invariant forall t <- at :: at[t] == FirstBetween(data, k, Ago(now, t) - 60.0, Ago(now, t))
    {
      raw := raw + [data[k]];
      if recent == None {
        recent := Some(data[k]);
      }
      at := NoteSample(at, data[k], now);
    }
    score := map t | t in RANGES :: Rate(recent, at[t], capacity);
    HeadIsLatest(rank, h, data);
    forall t | t in RANGES ensures LatestBetween(rank, h, Ago(now, t) - 60.0, Ago(now, t), at[t]) {
      FirstBetweenIsLatest(rank, h, data, Ago(now, t) - 60.0, Ago(now, t));
    }
  }

  // ---------- Pruning ----------

  /** zremrangebyscore(key, 0, upto) */
  function Pruned(h: History, upto: real): History {
    map c | c in h && !(0.0 <= h[c] <= upto) :: h[c]
  }

  /** What an analysis leaves of a history: the last 62 minutes, and of older samples those with a time below zero. */
  lemma LeftAfterAnalysis(h: History, now: real, c: int)
    ensures c in Pruned(h, Horizon(now)) <==> c in h && (h[c] < 0.0 || h[c] > now - 3720.0)
    ensures c in Pruned(h, Horizon(now)) ==> Pruned(h, Horizon(now))[c] == h[c]
  {
  }

  /** The redis keys of one worker. */
  class Store {
    var histories: map<string, History>

    constructor ()
      ensures histories == map[]
    {
      histories := map[];
    }

    ghost function HistoryOf(key: string): History
      reads this
    {
      if key in histories then histories[key] else map[]
    }

    /** zadd */
    method Add(key: string, time: real, counter: int)
      modifies this
      ensures histories == old(histories)[key := old(HistoryOf(key))[counter := time]]
    {
      var h := if key in histories then histories[key] else map[];
      histories := histories[key := h[counter := time]];
    }

    /** save_data: both directions of a port, if the message has both counters. */
    method SaveData(key: string, time: real, octetsIn: Option<int>, octetsOut: Option<int>)
      modifies this
      ensures octetsIn.None? || octetsOut.None? ==> histories == old(histories)
      ensures octetsIn.Some? && octetsOut.Some? ==>
                histories == old(histories)[key + ":in" := old(HistoryOf(key + ":in"))[octetsIn.value := time]]
                                           [key + ":out" := old(HistoryOf(key + ":out"))[octetsOut.value := time]]
    {
      if octetsIn.Some? && octetsOut.Some? {
        assert (key + ":in")[|key| + 1] != (key + ":out")[|key| + 1];
        Add(key + ":in", time, octetsIn.value);
        Add(key + ":out", time, octetsOut.value);
      }
    }

    /** The end of rank_utilisations: drops old samples of the keys just analysed. */
    method Prune(keys: seq<string>, now: real)
      modifies this
      ensures histories.Keys == old(histories).Keys
      ensures forall k <- histories ::
                histories[k] == if k in keys then Pruned(old(histories)[k], Horizon(now)) else old(histories)[k]
    {
      for i := 0 to |keys|
        invariant histories.Keys == old(histories).Keys
        invariant forall k <- histories ::
                    histories[k] == if k in keys[..i] then Pruned(old(histories)[k], Horizon(now))
                                    else old(histories)[k]
      {
        assert keys[..i + 1] == keys[..i] + [keys[i]];
        if keys[i] in histories {
          PruneTwice(old(histories)[keys[i]], Horizon(now), Horizon(now));
          histories := histories[keys[i] := Pruned(histories[keys[i]], Horizon(now))];
        }
      }
    }
  }

  /** Pruning at two horizons, in either order, is pruning at the later one. */
  lemma PruneTwice(h: History, a: real, b: real)
    ensures Pruned(Pruned(h, a), b) == Pruned(h, if a < b then b else a)
  {
  }

  // ---------- Pruned history agrees with full history ----------

  /** `Seen`: a counter value arrives, possibly late or again.  `Analysed`: the history is analysed at a
      time and pruned. */
  datatype Event = Seen(counter: int, time: real) | Analysed(now: real)

  function Step(h: History, ev: Event, prune: bool): History {
    match ev
    case Seen(c, t) => h[c := t]
    case Analysed(now) => if prune then Pruned(h, Horizon(now)) else h
  }

  /** The history after the first `n` events. */
  function After(events: seq<Event>, n: nat, prune: bool): History
    requires n <= |events|
  {
    if n == 0 then map[] else Step(After(events, n - 1, prune), events[n - 1], prune)
  }

  ghost predicate ClockForward(events: seq<Event>) {
    forall i, j | 0 <= i < j < |events| && events[i].Analysed? && events[j].Analysed? :: events[i].now <= events[j].now
  }

  /** Whatever is missing from `kept` lies at or below `upto`. */
  ghost predicate MissesOnlyOld(full: History, kept: History, upto: real) {
    && (forall c <- kept :: c in full && full[c] == kept[c])
    && (forall c <- full :: c !in kept ==> full[c] <= upto)
  }

  lemma {:induction false} PruningMissesOnlyOld(events: seq<Event>, n: nat, now: real)
    requires ClockForward(events) && n <= |events|
    requires forall i | 0 <= i < n && events[i].Analysed? :: events[i].now <= now
    ensures MissesOnlyOld(After(events, n, false), After(events, n, true), Horizon(now))
  {
    if n > 0 {
      PruningMissesOnlyOld(events, n - 1, now);
    }
  }

  /** Every range lies above the horizon. */
  lemma RangesAboveHorizon(now: real, t: int)
    requires t in RANGES
    ensures Horizon(now) < Ago(now, t) - 60.0
  {
  }

  /** Two histories that differ only in old samples give the same scores. */
  lemma OldSamplesDoNotMatter(rank: int -> int, full: History, kept: History, now: real, capacity: Option<real>,
                              a: map<int, Option<real>>, b: map<int, Option<real>>)
    requires MissesOnlyOld(full, kept, Horizon(now))
    requires Scores(rank, full, now, capacity, a) && Scores(rank, kept, now, capacity, b)
    ensures a == b
  {
    forall t | t in RANGES ensures a[t] == b[t] {
      RangesAboveHorizon(now, t);
      var lo, hi := Ago(now, t) - 60.0, Ago(now, t);
      var recentA, atA :| Latest(rank, full, recentA) && LatestBetween(rank, full, lo, hi, atA)
                          && a[t] == Rate(recentA, atA, capacity);
      var recentB, atB :| Latest(rank, kept, recentB) && LatestBetween(rank, kept, lo, hi, atB)
                          && b[t] == Rate(recentB, atB, capacity);
      SameInRange(rank, full, kept, now, lo, hi, atA, atB);
      if atA.Some? {
        SameLatest(rank, full, kept, now, atA.value, recentA, recentB);
      }
    }
  }

  lemma SameInRange(rank: int -> int, full: History, kept: History, now: real, lo: real, hi: real,
                    a: Option<Sample>, b: Option<Sample>)
    requires MissesOnlyOld(full, kept, Horizon(now)) && Horizon(now) < lo
    requires LatestBetween(rank, full, lo, hi, a) && LatestBetween(rank, kept, lo, hi, b)
    ensures a == b
  {
    forall s: Sample | lo < s.time < hi ensures Holds(full, s) <==> Holds(kept, s) {
    }
    assert a.Some? ==> Holds(kept, a.value);
    assert b.Some? ==> Holds(full, b.value);
  }

  lemma SameLatest(rank: int -> int, full: History, kept: History, now: real, young: Sample,
                   a: Option<Sample>, b: Option<Sample>)
    requires MissesOnlyOld(full, kept, Horizon(now))
    requires Holds(full, young) && young.time > Horizon(now)
    requires Latest(rank, full, a) && Latest(rank, kept, b)
    ensures a == b
  {
    assert Holds(kept, young);
    assert a.Some? && (a.value == young || Precedes(rank, a.value, young));
    assert Holds(kept, a.value);
    assert b.Some? && Holds(full, b.value);
  }

  /** Over any run in which the clock does not go back, and with counter values that come late or come
      again, every analysis of the pruned history scores as one of the full history would. */
  lemma PrunedScoresAreExact(rank: int -> int, events: seq<Event>, n: nat, capacity: Option<real>,
                             full: map<int, Option<real>>, kept: map<int, Option<real>>)
    requires ClockForward(events) && n < |events| && events[n].Analysed?
    requires Scores(rank, After(events, n, false), events[n].now, capacity, full)
    requires Scores(rank, After(events, n, true), events[n].now, capacity, kept)
    ensures full == kept
  {
    PruningMissesOnlyOld(events, n, events[n].now);
    OldSamplesDoNotMatter(rank, After(events, n, false), After(events, n, true), events[n].now, capacity, full, kept);
  }
}
